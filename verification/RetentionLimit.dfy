/** The limit of a run is one per organisation: two of them lose twice as many rows of a kind. */
module RetentionLimit {
  import opened Wrappers
  import opened Retention
  import opened RetentionRuns
  import opened RetentionStore

  lemma {:induction false} BatchExists(eligible: set<nat>, limit: nat) returns (ids: set<nat>)
    ensures IsBatch(ids, eligible, limit)
    decreases limit
  {
    if limit == 0 || eligible == {} {
      ids := {};
    } else {
      var k :| k in eligible;
      var rest := BatchExists(eligible - {k}, limit - 1);
      ids := rest + {k};
    }
  }

  lemma TaskPick(t: Tables, task: Task, now: int, s: Settings) returns (ids: set<nat>)
    ensures Allowed(t, task, ids, now, s)
  {
    if task.Rejections? || task.Logins? {
      ids := Eligible(t, task, now, s);
    } else {
      ids := BatchExists(Eligible(t, task, now, s), s.limit);
    }
  }

  /** From every state there is a run of every list of tasks. */
  lemma {:induction false} RunExists(t: Tables, tasks: seq<Task>, now: int, s: Settings) returns (trace: Trace)
    ensures IsRun(trace.states, trace.tasks, trace.picks, now, s) && trace.states[0] == t && trace.tasks == tasks
  {
    if tasks == [] {
      trace := Trace([t], [], []);
    } else {
      var n := |tasks| - 1;
      var before := RunExists(t, tasks[..n], now, s);
      var current := before.states[n];
      var ids := TaskPick(current, tasks[n], now, s);
      trace := Longer(before, current, tasks[n], ids, Without(current, Took(tasks[n], ids)),
                      Tally(before.tasks, before.picks), now, s);
    }
  }

  predicate Among(k: nat, from: nat, n: nat) { from <= k < from + n }

  function Between(from: nat, n: nat): set<nat> { set k: nat | from <= k < from + n && Among(k, from, n) }

  lemma {:induction false} BetweenSize(from: nat, n: nat)
    ensures |Between(from, n)| == n
  {
    if n > 0 {
      BetweenSize(from, n - 1);
      assert Between(from, n) == Between(from, n - 1) + {from + n - 1};
    } else {
      assert Between(from, 0) == {};
    }
  }

  const FIRST := Organization(1, 1)
  const SECOND := Organization(2, 1)

  /** As many old reports for each of two organisations. */
  function OldTables(n: nat): Tables {
    Tables(map k | k in Between(0, 2 * n) :: Report(if k < n then FIRST.id else SECOND.id, None, 0), map[], map[],
           map[], map[], map[], map[], map[], map[], map[], map[], map[], map[], map[])
  }

  const NOW := DAY + 1

  lemma OldReports(n: nat, s: Settings)
    ensures Eligible(OldTables(n), Reports(FIRST), NOW, s) == Between(0, n)
    ensures Eligible(OldTables(n), Reports(SECOND), NOW, s) == Between(n, n)
  {
  }

  /** What is gone of one organisation is gone from the table. */
  lemma GoneOfOwn(trace: Trace, s: Settings, q: Task, k: nat)
    requires IsRun(trace.states, trace.tasks, trace.picks, NOW, s) && q.Reports?
    requires k in Own(trace.states[0], q) - Own(trace.states[|trace.tasks|], q)
    ensures k in trace.states[0].reports && k !in trace.states[|trace.tasks|].reports
    ensures trace.states[0].reports[k].organization == q.of.id
  {
    OnlyOldGone(trace.states, trace.tasks, trace.picks, NOW, s, |trace.tasks|, q, k);
  }

  /** For every limit there are tables from which a run over two organisations takes twice as many reports. */
  lemma TwiceTheLimit(limit: nat) returns (trace: Trace, s: Settings)
    ensures s.limit == limit && trace.tasks == Tasks([FIRST, SECOND])
    ensures IsRun(trace.states, trace.tasks, trace.picks, NOW, s)
    ensures |trace.states[0].reports.Keys - trace.states[|trace.tasks|].reports.Keys| >= 2 * limit
  {
    s := Settings(limit, 1, 1, 1, 1);
    var organizations := [FIRST, SECOND];
    TasksDiffer(organizations);
    trace := RunExists(OldTables(limit), Tasks(organizations), NOW, s);
    TaskAt(organizations, 0, 0);
    TaskAt(organizations, 1, 0);
    var first := OwnGone(trace, s, 0, FIRST, limit);
    var second := OwnGone(trace, s, 5, SECOND, limit);
    var gone := trace.states[0].reports.Keys - trace.states[|trace.tasks|].reports.Keys;
    assert first !! second;
    CardinalityGrows(first + second, gone);
  }

  lemma OwnGone(trace: Trace, s: Settings, p: nat, o: Organization, limit: nat) returns (gone: set<nat>)
    requires IsRun(trace.states, trace.tasks, trace.picks, NOW, s) && NoTaskTwice(trace.tasks)
    requires p < |trace.tasks| && trace.tasks[p] == Reports(o) && (o == FIRST || o == SECOND)
    requires trace.states[0] == OldTables(limit) && s.limit == limit
    ensures |gone| == limit
    ensures forall k :: k in gone ==> k in trace.states[0].reports && k !in trace.states[|trace.tasks|].reports
    ensures forall k :: k in gone ==> trace.states[0].reports[k].organization == o.id
  {
    var q := trace.tasks[p];
    OldReports(limit, s);
    BetweenSize(0, limit);
    BetweenSize(limit, limit);
    RemovesBatch(trace.states, trace.tasks, trace.picks, NOW, s, p);
    gone := Own(trace.states[0], q) - Own(trace.states[|trace.tasks|], q);
    forall k | k in gone
      ensures k in trace.states[0].reports && k !in trace.states[|trace.tasks|].reports
      ensures trace.states[0].reports[k].organization == o.id
    {
      GoneOfOwn(trace, s, q, k);
    }
  }
}
