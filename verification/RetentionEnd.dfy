/** Runs at a fixed time come to an end: nothing is left to take, and further runs change nothing. */
module RetentionEnd {
  import opened Retention
  import opened RetentionRuns

  const ANY := Organization(0, 0)

  function Weight(t: Tables): nat {
    |Ids(t, Reports(ANY))| + |Ids(t, FailureReports(ANY))| + |Ids(t, TlsReports(ANY))| + |Ids(t, Jobs(ANY))|
    + |Ids(t, Messages(ANY))| + |Ids(t, RawMails)| + |Ids(t, Rejections)| + |Ids(t, Logins)|
  }

  lemma FewerIds(t: Tables, task: Task, ids: set<nat>, next: Tables, kind: Task)
    requires ids <= Ids(t, task) && next == Without(t, Took(task, ids))
    ensures |Ids(next, kind)| <= |Ids(t, kind)| - if SameKind(task, kind) then |ids| else 0
  {
    StepTakes(t, task, ids, kind);
    SameIds(t, task, kind);
    FewerWithout(Ids(t, kind), ids);
  }

  lemma SameIds(t: Tables, task: Task, kind: Task)
    ensures SameKind(task, kind) ==> Ids(t, kind) == Ids(t, task)
  {
  }

  lemma FewerWithout(all: set<nat>, ids: set<nat>)
    ensures |all - ids| <= |all| && (ids <= all ==> |all - ids| == |all| - |ids|)
  {
    CardinalityGrows(all - ids, all);
    if ids <= all {
      assert all == ids + (all - ids);
    }
  }

  lemma TakenIds(t: Tables, task: Task, ids: set<nat>, now: int, s: Settings)
    requires Allowed(t, task, ids, now, s)
    ensures ids <= Ids(t, task)
  {
    forall k | k in ids ensures k in Ids(t, task) {
      TakenOld(t, task, ids, now, s, k);
    }
  }

  lemma StepLightens(t: Tables, task: Task, ids: set<nat>, next: Tables)
    requires ids <= Ids(t, task) && next == Without(t, Took(task, ids))
    ensures Weight(next) <= Weight(t) - |ids|
  {
    FewerIds(t, task, ids, next, Reports(ANY));
    FewerIds(t, task, ids, next, FailureReports(ANY));
    FewerIds(t, task, ids, next, TlsReports(ANY));
    FewerIds(t, task, ids, next, Jobs(ANY));
    FewerIds(t, task, ids, next, Messages(ANY));
    FewerIds(t, task, ids, next, RawMails);
    FewerIds(t, task, ids, next, Rejections);
    FewerIds(t, task, ids, next, Logins);
  }

  lemma RunStep(states: seq<Tables>, tasks: seq<Task>, picks: seq<set<nat>>, now: int, s: Settings, i: nat)
    requires IsRun(states, tasks, picks, now, s) && i < |tasks|
    ensures Weight(states[i + 1]) <= Weight(states[i]) - |picks[i]|
    ensures picks[i] == {} ==> states[i + 1] == states[i]
  {
    RunMoves(states, tasks, picks, now, s, i);
    TakenIds(states[i], tasks[i], picks[i], now, s);
    StepLightens(states[i], tasks[i], picks[i], states[i + 1]);
    if picks[i] == {} {
      TookNothing(tasks[i]);
      WithoutNothing(states[i]);
    }
  }

  lemma TookNothing(task: Task)
    ensures Took(task, {}) == Nothing()
  {
  }

  predicate Untaken(picks: seq<set<nat>>, n: nat)
    requires n <= |picks|
  {
    forall i :: 0 <= i < n ==> picks[i] == {}
  }

  lemma {:induction false} RunStill(states: seq<Tables>, tasks: seq<Task>, picks: seq<set<nat>>, now: int, s: Settings,
                                    n: nat)
    requires IsRun(states, tasks, picks, now, s) && n <= |tasks| == |picks| && Untaken(picks, n)
    ensures states[n] == states[0]
  {
    if n > 0 {
      RunStill(states, tasks, picks, now, s, n - 1);
      RunStep(states, tasks, picks, now, s, n - 1);
    }
  }

  /** A sequence of weights that falls with every pick. */
  lemma {:induction false} WeightFalls(weights: seq<int>, picks: seq<set<nat>>, n: nat)
    requires n <= |picks| < |weights|
    requires forall i :: 0 <= i < |picks| ==> weights[i + 1] <= weights[i] - |picks[i]|
    ensures weights[n] <= weights[0]
    ensures !Untaken(picks, n) ==> weights[n] < weights[0]
  {
    if n > 0 {
      WeightFalls(weights, picks, n - 1);
      if Untaken(picks, n - 1) && picks[n - 1] == {} {
        assert Untaken(picks, n);
      }
    }
  }

  lemma RunLightens(states: seq<Tables>, tasks: seq<Task>, picks: seq<set<nat>>, now: int, s: Settings, n: nat)
    requires IsRun(states, tasks, picks, now, s) && n <= |tasks| == |picks|
    ensures if Untaken(picks, n) then states[n] == states[0] else Weight(states[n]) < Weight(states[0])
  {
    if Untaken(picks, n) {
      RunStill(states, tasks, picks, now, s, n);
    } else {
      var weights := seq(|states|, i requires 0 <= i < |states| => Weight(states[i]));
      forall i | 0 <= i < |picks| ensures weights[i + 1] <= weights[i] - |picks[i]| {
        RunStep(states, tasks, picks, now, s, i);
      }
      WeightFalls(weights, picks, n);
    }
  }

  predicate Idle(t: Tables, tasks: seq<Task>, now: int, s: Settings) {
    forall i :: 0 <= i < |tasks| ==> Eligible(t, tasks[i], now, s) == {}
  }

  ghost predicate FullRun(t: Tables, next: Tables, tasks: seq<Task>, now: int, s: Settings) {
    exists states, picks :: IsRun(states, tasks, picks, now, s) && states[0] == t && states[|tasks|] == next
  }

  lemma NoneTaken(t: Tables, task: Task, ids: set<nat>, now: int, s: Settings)
    requires Allowed(t, task, ids, now, s) && s.limit > 0
    ensures ids == {} <==> Eligible(t, task, now, s) == {}
  {
  }

  lemma {:induction false} IdleStays(states: seq<Tables>, tasks: seq<Task>, picks: seq<set<nat>>, now: int, s: Settings,
                                     n: nat)
    requires IsRun(states, tasks, picks, now, s) && n <= |tasks| && s.limit > 0 && Idle(states[0], tasks, now, s)
    ensures states[n] == states[0]
  {
    if n > 0 {
      IdleStays(states, tasks, picks, now, s, n - 1);
      RunMoves(states, tasks, picks, now, s, n - 1);
      NoneTaken(states[n - 1], tasks[n - 1], picks[n - 1], now, s);
      RunStep(states, tasks, picks, now, s, n - 1);
    }
  }

  /** A run either finds nothing at all to take and changes nothing, or leaves fewer rows than before. */
  lemma RunOrIdle(t: Tables, next: Tables, tasks: seq<Task>, now: int, s: Settings)
    requires FullRun(t, next, tasks, now, s) && s.limit > 0
    ensures if Idle(t, tasks, now, s) then next == t else Weight(next) < Weight(t)
  {
    var states, picks :| IsRun(states, tasks, picks, now, s) && states[0] == t && states[|tasks|] == next;
    RunLightens(states, tasks, picks, now, s, |tasks|);
    if Idle(t, tasks, now, s) {
      IdleStays(states, tasks, picks, now, s, |tasks|);
    } else if Untaken(picks, |tasks|) {
      forall i | 0 <= i < |tasks| ensures Eligible(t, tasks[i], now, s) == {} {
        RunLightens(states, tasks, picks, now, s, i);
        RunMoves(states, tasks, picks, now, s, i);
        NoneTaken(states[i], tasks[i], picks[i], now, s);
      }
    }
  }

  lemma WeightlessIdle(t: Tables, tasks: seq<Task>, now: int, s: Settings)
    requires Weight(t) == 0
    ensures Idle(t, tasks, now, s)
  {
    forall i | 0 <= i < |tasks| ensures Eligible(t, tasks[i], now, s) == {} {
      EmptyKind(t, tasks[i], now, s);
    }
  }

  lemma EmptyKind(t: Tables, task: Task, now: int, s: Settings)
    requires Weight(t) == 0
    ensures Eligible(t, task, now, s) == {}
  {
    assert Ids(t, RawMails) == {} && Ids(t, Rejections) == {} && Ids(t, Logins) == {};
    assert Ids(t, Reports(ANY)) == {} && Ids(t, FailureReports(ANY)) == {} && Ids(t, TlsReports(ANY)) == {};
    assert Ids(t, Jobs(ANY)) == {} && Ids(t, Messages(ANY)) == {};
    match task
    case RawMails => assert forall k :: k in Eligible(t, task, now, s) ==> k in Ids(t, RawMails);
    case _ =>
  }

  /** A sequence that keeps its last element or gets lighter comes to rest. */
  lemma {:induction false} ComesToRest<T>(ts: seq<T>, weight: T -> nat, idle: T -> bool, n: nat)
    requires n < |ts| && forall k :: 0 <= k < |ts| && weight(ts[k]) == 0 ==> idle(ts[k])
    requires forall k :: 0 <= k < |ts| - 1 ==>
               if idle(ts[k]) then ts[k + 1] == ts[k] else weight(ts[k + 1]) < weight(ts[k])
    ensures idle(ts[n]) || weight(ts[n]) <= weight(ts[0]) - n
    ensures n >= weight(ts[0]) ==> idle(ts[n])
    ensures n > weight(ts[0]) ==> ts[n] == ts[n - 1]
  {
    if n > 0 {
      ComesToRest(ts, weight, idle, n - 1);
      assert if idle(ts[n - 1]) then ts[n - 1 + 1] == ts[n - 1] else weight(ts[n - 1 + 1]) < weight(ts[n - 1]);
    }
  }

  lemma RunRests(t: Tables, tasks: seq<Task>, now: int, s: Settings, weight: Tables -> nat, idle: Tables -> bool)
    requires weight == Weight && idle == (x => Idle(x, tasks, now, s)) && s.limit > 0
    ensures weight(t) == 0 ==> idle(t)
    ensures forall next :: FullRun(t, next, tasks, now, s) ==> if idle(t) then next == t else weight(next) < weight(t)
  {
    if Weight(t) == 0 {
      WeightlessIdle(t, tasks, now, s);
    }
    forall next | FullRun(t, next, tasks, now, s) ensures if idle(t) then next == t else weight(next) < weight(t) {
      RunOrIdle(t, next, tasks, now, s);
    }
  }

  /** Repeated often enough at a fixed time, runs reach a state with nothing to take, and stay there. */
  lemma Converges(ts: seq<Tables>, tasks: seq<Task>, now: int, s: Settings, n: nat)
    requires n < |ts| && s.limit > 0
    requires forall k :: 0 <= k < |ts| - 1 ==> FullRun(ts[k], ts[k + 1], tasks, now, s)
    ensures Idle(ts[n], tasks, now, s) || Weight(ts[n]) <= Weight(ts[0]) - n
    ensures n >= Weight(ts[0]) ==> Idle(ts[n], tasks, now, s)
    ensures n > Weight(ts[0]) ==> ts[n] == ts[n - 1]
  {
    var weight: Tables -> nat, idle := Weight, (x: Tables) => Idle(x, tasks, now, s);
    assert weight(ts[n]) == Weight(ts[n]) && weight(ts[0]) == Weight(ts[0]);
    assert idle(ts[n]) == Idle(ts[n], tasks, now, s);
    forall k | 0 <= k < |ts|
      ensures weight(ts[k]) == 0 ==> idle(ts[k])
      ensures k < |ts| - 1 ==> if idle(ts[k]) then ts[k + 1] == ts[k] else weight(ts[k + 1]) < weight(ts[k])
    {
      RunRests(ts[k], tasks, now, s, weight, idle);
    }
    ComesToRest(ts, weight, idle, n);
  }
}
