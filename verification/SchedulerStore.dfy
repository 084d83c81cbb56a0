/** The table of runs and the statements on it, as one process issues them. */
module SchedulerStore {
  import opened Wrappers
  import opened Scheduler

  class SchedulerRuns {
    var rows: seq<Row>

    constructor ()
      ensures rows == []
    {
      rows := [];
    }

    method Find(name: string) returns (found: bool)
      ensures found <==> HasRow(rows, name)
    {
      for i := 0 to |rows|
        invariant forall j :: 0 <= j < i ==> rows[j].name != name
      {
        if rows[i].name == name {
          return true;
        }
      }
      return false;
    }

    /** False when the primary key is taken. */
    method InsertRow(name: string) returns (added: bool)
      modifies this
      ensures rows == Inserted(old(rows), name) && added == !HasRow(old(rows), name)
    {
      var found := Find(name);
      added := !found;
      if added {
        rows := rows + [Row(name, None, None, None)];
      }
    }

    method UpdateDue(name: string, now: int, interval: int) returns (count: nat)
      modifies this
      ensures rows == Updated(old(rows), name, now, interval) && count == RowCount(old(rows), name, now, interval)
    {
      ghost var before := rows;
      count := 0;
      for i := 0 to |rows|
        invariant |rows| == |before|
        invariant forall j :: i <= j < |rows| ==> rows[j] == before[j]
        invariant forall j :: 0 <= j < i ==> rows[j] == Updated(before, name, now, interval)[j]
        invariant count == RowCount(before[..i], name, now, interval)
      {
        assert before[..i + 1][..i] == before[..i];
        if rows[i].name == name && (rows[i].started.None? || rows[i].started.value <= now - interval) {
          rows := rows[i := rows[i].(started := Some(now), status := Some(Running))];
          count := count + 1;
        }
      }
      assert before[..|before|] == before;
    }

    /** True exactly when the row, added if need be, was due before; its start time is now then. */
    method Claim(name: string, interval: int, now: int) returns (won: bool)
      requires OneRow(rows)
      modifies this
      ensures OneRow(rows) && HasRow(rows, name)
      ensures rows == Updated(Inserted(old(rows), name), name, now, interval)
      ensures won <==> Due(Started(old(rows), name), now, interval)
    {
      var found := Find(name);
      if !found {
        var _ := InsertRow(name);
      }
      StartedInserted(old(rows), name, name);
      RowInserted(old(rows), name);
      CountsOne(rows, name, now, interval);
      RowUpdated(rows, name, now, interval);
      var count := UpdateDue(name, now, interval);
      won := count == 1;
    }

    /** A claim and, after a successful one, the closing update; the parameters say how and when the work ended. */
    method RunJob(name: string, interval: int, now: int, ok: bool, done: int) returns (ran: bool)
      requires OneRow(rows)
      modifies this
      ensures OneRow(rows)
      ensures ran <==> Due(Started(old(rows), name), now, interval)
      ensures Started(rows, name) == if ran then Some(now) else Started(old(rows), name)
      ensures forall other | other != name :: Started(rows, other) == Started(old(rows), other)
      ensures ran ==> forall i :: 0 <= i < |rows| && rows[i].name == name ==>
                        rows[i].finished == Some(done) && rows[i].status == Some(if ok then Ok else Failed)
    {
      ghost var before := rows;
      ran := Claim(name, interval, now);
      ghost var claimed := rows;
      forall other
        ensures Started(claimed, other) == if other == name && ran then Some(now) else Started(before, other)
      {
        StartedInserted(before, name, other);
        StartedInserted(before, name, name);
        RowInserted(before, name);
        StartedAfter(Inserted(before, name), name, now, interval, other);
      }
      if ran {
        rows := FinishedRows(rows, name, done, ok);
        RunFinished(claimed, name, done, ok);
      }
    }
  }

  /** The closing update changes no start time, and notes end and outcome in the rows of the job. */
  lemma RunFinished(rows: seq<Row>, name: string, done: int, ok: bool)
    requires OneRow(rows)
    ensures var after := FinishedRows(rows, name, done, ok);
            && OneRow(after) && (forall other :: Started(after, other) == Started(rows, other))
            && forall i :: 0 <= i < |after| && after[i].name == name ==>
                 after[i].finished == Some(done) && after[i].status == Some(if ok then Ok else Failed)
  {
    forall other ensures Started(FinishedRows(rows, name, done, ok), other) == Started(rows, other) {
      StartedFinished(rows, name, done, ok, other);
    }
  }
}
