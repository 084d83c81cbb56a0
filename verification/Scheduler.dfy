/** Claiming the turn of a job through its row, by any number of processes with clocks of their own. Every statement of
    a process is one step; between two of them any other process may act. */
module Scheduler {
  import opened Wrappers

  datatype Status = Running | Ok | Failed
  datatype Row = Row(name: string, started: Option<int>, finished: Option<int>, status: Option<Status>)

  // The statements -----------------------------------------------------------------------------------------

  predicate HasRow(rows: seq<Row>, name: string) {
    exists i :: 0 <= i < |rows| && rows[i].name == name
  }

  /** Insert, unless the primary key is taken. */
  function Inserted(rows: seq<Row>, name: string): seq<Row> {
    if HasRow(rows, name) then rows else rows + [Row(name, None, None, None)]
  }

  predicate Due(started: Option<int>, now: int, interval: int) {
    started.None? || started.value <= now - interval
  }

  predicate Hit(row: Row, name: string, now: int, interval: int) {
    row.name == name && Due(row.started, now, interval)
  }

  /** The conditional update: the rows it changes, and how many. */
  function Updated(rows: seq<Row>, name: string, now: int, interval: int): (after: seq<Row>)
    ensures |after| == |rows|
  {
    seq(|rows|, i requires 0 <= i < |rows| =>
      if Hit(rows[i], name, now, interval) then rows[i].(started := Some(now), status := Some(Running)) else rows[i])
  }

  function RowCount(rows: seq<Row>, name: string, now: int, interval: int): nat {
    if rows == [] then 0
    else RowCount(rows[..|rows| - 1], name, now, interval)
         + if Hit(rows[|rows| - 1], name, now, interval) then 1 else 0
  }

  function FinishedRows(rows: seq<Row>, name: string, at: int, ok: bool): (after: seq<Row>)
    ensures |after| == |rows|
  {
    seq(|rows|, i requires 0 <= i < |rows| =>
      if rows[i].name == name then rows[i].(finished := Some(at), status := Some(if ok then Ok else Failed))
      else rows[i])
  }

  // The processes ---------------------------------------------------------------------------------------------

  /** Where a process stands. */
  datatype Place =
    | Idle
    | Inserting(name: string, now: int)   // it found no row
    | Updating(name: string, now: int)
    | Working(name: string, now: int)     // it has the turn

  /** claims: all successful claims in the order of their updates. */
  datatype World = World(rows: seq<Row>, places: map<nat, Place>, claims: seq<Claim>)
  datatype Claim = Claim(name: string, at: int)

  datatype Step =
    | Begin(p: nat, name: string, now: int)
    | Insert(p: nat)
    | Update(p: nat)
    | Finish(p: nat, at: int, ok: bool)
    | Crash(p: nat)

  function PlaceOf(w: World, p: nat): Place {
    if p in w.places then w.places[p] else Idle
  }

  predicate CanStep(w: World, step: Step) {
    match step
    case Begin(p, _, _) => PlaceOf(w, p) == Idle
    case Insert(p) => PlaceOf(w, p).Inserting?
    case Update(p) => PlaceOf(w, p).Updating?
    case Finish(p, _, _) => PlaceOf(w, p).Working?
    case Crash(_) => true
  }

  function After(w: World, step: Step, interval: string -> int): World
    requires CanStep(w, step)
  {
    match step
    case Begin(p, name, now) =>
      w.(places := w.places[p := if HasRow(w.rows, name) then Updating(name, now) else Inserting(name, now)])
    case Insert(p) =>
      var place := w.places[p];
      w.(rows := Inserted(w.rows, place.name), places := w.places[p := Updating(place.name, place.now)])
    case Update(p) => AfterUpdate(w, p, w.places[p].name, w.places[p].now, interval(w.places[p].name))
    case Finish(p, at, ok) =>
      w.(rows := FinishedRows(w.rows, w.places[p].name, at, ok), places := w.places[p := Idle])
    case Crash(p) => w.(places := w.places[p := Idle])
  }

  /** The process has the turn when its update changed one row. */
  function AfterUpdate(w: World, p: nat, name: string, now: int, interval: int): World {
    var won := RowCount(w.rows, name, now, interval) == 1;
    World(Updated(w.rows, name, now, interval),
          w.places[p := if won then Working(name, now) else Idle],
          if won then w.claims + [Claim(name, now)] else w.claims)
  }

  ghost predicate IsRun(worlds: seq<World>, steps: seq<Step>, interval: string -> int) {
    && |worlds| == |steps| + 1 && worlds[0] == World([], map[], [])
    && forall k: nat :: k < |steps| ==> StepsAt(worlds, steps, interval, k)
  }

  ghost predicate StepsAt(worlds: seq<World>, steps: seq<Step>, interval: string -> int, k: nat)
    requires |worlds| == |steps| + 1 && k < |steps|
  {
    CanStep(worlds[k], steps[k]) && worlds[k + 1] == After(worlds[k], steps[k], interval)
  }

  // What holds at every moment ---------------------------------------------------------------------------------

  predicate OneRow(rows: seq<Row>) {
    forall i, j :: 0 <= i < j < |rows| ==> rows[i].name != rows[j].name
  }

  function Started(rows: seq<Row>, name: string): Option<int> {
    if rows == [] then None
    else if rows[|rows| - 1].name == name then rows[|rows| - 1].started
    else Started(rows[..|rows| - 1], name)
  }

  /** The times of the claims of one job, in order. */
  function Times(claims: seq<Claim>, name: string): seq<int> {
    if claims == [] then []
    else
      var before := Times(claims[..|claims| - 1], name);
      if claims[|claims| - 1].name == name then before + [claims[|claims| - 1].at] else before
  }

  function Last(times: seq<int>): Option<int> {
    if times == [] then None else Some(times[|times| - 1])
  }

  /** Successive times are at least d apart. */
  predicate Apart(times: seq<int>, d: int) {
    forall i :: 0 <= i < |times| - 1 ==> times[i] + d <= times[i + 1]
  }

  /** The row of each job holds the time of its last claim. */
  ghost predicate Recorded(w: World) {
    forall name :: Started(w.rows, name) == Last(Times(w.claims, name))
  }

  ghost predicate Spaced(w: World, interval: string -> int) {
    forall name :: Apart(Times(w.claims, name), interval(name))
  }

  /** A process that goes on to the update has found or inserted the row. */
  predicate RowsThere(w: World) {
    forall p :: p in w.places && w.places[p].Updating? ==> HasRow(w.rows, w.places[p].name)
  }

  predicate WorkingClaims(w: World) {
    forall p :: p in w.places && w.places[p].Working? ==> w.places[p].now in Times(w.claims, w.places[p].name)
  }

  /** Two processes at work on one job hold different claims of it. */
  predicate OwnClaims(w: World, interval: string -> int) {
    forall p, q :: p in w.places && q in w.places && p != q ==> AtWorkApart(w.places[p], w.places[q], interval)
  }

  predicate AtWorkApart(a: Place, b: Place, interval: string -> int) {
    a.Working? && b.Working? && a.name == b.name ==>
      a.now + interval(a.name) <= b.now || b.now + interval(a.name) <= a.now
  }

  ghost predicate Sound(w: World, interval: string -> int) {
    OneRow(w.rows) && Recorded(w) && Spaced(w, interval) && RowsThere(w) && WorkingClaims(w) && OwnClaims(w, interval)
  }

  // Rows ----------------------------------------------------------------------------------------------------------

  lemma {:induction false} NoRow(rows: seq<Row>, name: string, now: int, interval: int)
    requires !HasRow(rows, name)
    ensures RowCount(rows, name, now, interval) == 0 && Started(rows, name) == None
    ensures Updated(rows, name, now, interval) == rows
  {
    if rows != [] {
      var n := |rows| - 1;
      assert rows[n].name != name;
      assert !HasRow(rows[..n], name);
      NoRow(rows[..n], name, now, interval);
    }
  }

  /** With one row per job the update changes one row exactly when there is a row and it is due. */
  lemma {:induction false} CountsOne(rows: seq<Row>, name: string, now: int, interval: int)
    requires OneRow(rows) && HasRow(rows, name)
    ensures RowCount(rows, name, now, interval) == if Due(Started(rows, name), now, interval) then 1 else 0
  {
    var n := |rows| - 1;
    if rows[n].name == name {
      assert !HasRow(rows[..n], name);
      NoRow(rows[..n], name, now, interval);
    } else {
      assert HasRow(rows[..n], name) by {
        var i :| 0 <= i < |rows| && rows[i].name == name;
        assert rows[..n][i].name == name;
      }
      CountsOne(rows[..n], name, now, interval);
    }
  }

  lemma {:induction false} StartedAfter(rows: seq<Row>, name: string, now: int, interval: int, other: string)
    requires OneRow(rows)
    ensures Started(Updated(rows, name, now, interval), other)
         == if other == name && HasRow(rows, name) && Due(Started(rows, name), now, interval) then Some(now)
            else Started(rows, other)
  {
    if rows != [] {
      var n := |rows| - 1;
      var after := Updated(rows, name, now, interval);
      assert after[..n] == Updated(rows[..n], name, now, interval);
      StartedAfter(rows[..n], name, now, interval, other);
      if rows[n].name == name {
        assert HasRow(rows, name);
        assert !HasRow(rows[..n], name);
      } else if HasRow(rows, name) {
        var i :| 0 <= i < |rows| && rows[i].name == name;
        assert rows[..n][i].name == name;
      } else {
        assert !HasRow(rows[..n], name);
      }
    }
  }

  lemma StartedInserted(rows: seq<Row>, name: string, other: string)
    ensures Started(Inserted(rows, name), other) == Started(rows, other)
  {
    if !HasRow(rows, name) {
      var row := Row(name, None, None, None);
      assert (rows + [row])[..|rows|] == rows;
      if other == name {
        NoRow(rows, name, 0, 0);
      }
    }
  }

  lemma {:induction false} StartedFinished(rows: seq<Row>, name: string, at: int, ok: bool, other: string)
    ensures Started(FinishedRows(rows, name, at, ok), other) == Started(rows, other)
  {
    if rows != [] {
      var n := |rows| - 1;
      assert FinishedRows(rows, name, at, ok)[..n] == FinishedRows(rows[..n], name, at, ok);
      StartedFinished(rows[..n], name, at, ok, other);
    }
  }

  lemma RowInserted(rows: seq<Row>, name: string)
    ensures HasRow(Inserted(rows, name), name) && (OneRow(rows) ==> OneRow(Inserted(rows, name)))
  {
    if !HasRow(rows, name) {
      assert Inserted(rows, name)[|rows|].name == name;
    }
  }

  lemma RowUpdated(rows: seq<Row>, name: string, now: int, interval: int)
    requires OneRow(rows) && HasRow(rows, name)
    ensures HasRow(Updated(rows, name, now, interval), name) && OneRow(Updated(rows, name, now, interval))
  {
    var i :| 0 <= i < |rows| && rows[i].name == name;
    assert Updated(rows, name, now, interval)[i].name == name;
  }

  /** No statement changes the names of rows already there. */
  lemma NamesKept(w: World, step: Step, interval: string -> int)
    requires CanStep(w, step) && OneRow(w.rows)
    ensures var next := After(w, step, interval);
            && OneRow(next.rows) && |w.rows| <= |next.rows|
            && forall i :: 0 <= i < |w.rows| ==> next.rows[i].name == w.rows[i].name
  {
  }

  lemma RowStays(w: World, step: Step, interval: string -> int, name: string)
    requires CanStep(w, step) && OneRow(w.rows) && HasRow(w.rows, name)
    ensures HasRow(After(w, step, interval).rows, name)
  {
    NamesKept(w, step, interval);
    var i :| 0 <= i < |w.rows| && w.rows[i].name == name;
    assert After(w, step, interval).rows[i].name == name;
  }

  lemma TimesNext(claims: seq<Claim>, c: Claim, name: string)
    ensures Times(claims + [c], name) == Times(claims, name) + if c.name == name then [c.at] else []
  {
    assert (claims + [c])[..|claims|] == claims;
  }
}
