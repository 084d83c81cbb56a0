/** What the claims of all processes together guarantee. */
module SchedulerRuns {
  import opened Wrappers
  import opened Scheduler

  ghost predicate ValidIntervals(interval: string -> int) {
    forall name :: interval(name) > 0
  }

  // One update ------------------------------------------------------------------------------------------

  predicate Wins(w: World, p: nat, interval: string -> int)
    requires CanStep(w, Update(p))
  {
    Due(Started(w.rows, w.places[p].name), w.places[p].now, interval(w.places[p].name))
  }

  lemma UpdateWins(w: World, p: nat, interval: string -> int)
    requires Sound(w, interval) && CanStep(w, Update(p))
    ensures var place, next := w.places[p], After(w, Update(p), interval);
            && next.claims == (if Wins(w, p, interval) then w.claims + [Claim(place.name, place.now)] else w.claims)
            && next.places == w.places[p := if Wins(w, p, interval) then Working(place.name, place.now) else Idle]
            && next.rows == Updated(w.rows, place.name, place.now, interval(place.name))
  {
    CountsOne(w.rows, w.places[p].name, w.places[p].now, interval(w.places[p].name));
  }

  lemma StepRecords(w: World, step: Step, interval: string -> int, name: string)
    requires CanStep(w, step) && Sound(w, interval)
    ensures Started(After(w, step, interval).rows, name) == Last(Times(After(w, step, interval).claims, name))
  {
    assert Started(w.rows, name) == Last(Times(w.claims, name));
    match step
    case Begin(_, _, _) =>
    case Crash(_) =>
    case Insert(p) => StartedInserted(w.rows, w.places[p].name, name);
    case Finish(p, at, ok) => StartedFinished(w.rows, w.places[p].name, at, ok, name);
    case Update(p) =>
      var place := w.places[p];
      UpdateWins(w, p, interval);
      StartedAfter(w.rows, place.name, place.now, interval(place.name), name);
      TimesNext(w.claims, Claim(place.name, place.now), name);
  }

  /** Step k is an update of this job. */
  predicate Contends(w: World, step: Step, name: string) {
    step.Update? && CanStep(w, step) && w.places[step.p].name == name
  }

  lemma StepTimes(w: World, step: Step, interval: string -> int, name: string)
    requires CanStep(w, step) && Sound(w, interval)
    ensures Times(After(w, step, interval).claims, name)
         == Times(w.claims, name)
            + if Contends(w, step, name) && Wins(w, step.p, interval) then [w.places[step.p].now] else []
  {
    if step.Update? {
      var place := w.places[step.p];
      UpdateWins(w, step.p, interval);
      TimesNext(w.claims, Claim(place.name, place.now), name);
    }
  }

  lemma StepSpaces(w: World, step: Step, interval: string -> int, name: string)
    requires CanStep(w, step) && Sound(w, interval)
    ensures Apart(Times(After(w, step, interval).claims, name), interval(name))
  {
    var times := Times(w.claims, name);
    StepTimes(w, step, interval, name);
    assert Apart(times, interval(name));
    if Contends(w, step, name) && Wins(w, step.p, interval) {
      assert Started(w.rows, name) == Last(times);
      ApartNext(times, w.places[step.p].now, interval(name));
    }
  }

  lemma ApartNext(times: seq<int>, now: int, d: int)
    requires Apart(times, d) && Due(Last(times), now, d)
    ensures Apart(times + [now], d)
  {
  }

  lemma StepRows(w: World, step: Step, interval: string -> int)
    requires CanStep(w, step) && Sound(w, interval)
    ensures RowsThere(After(w, step, interval))
  {
    var next := After(w, step, interval);
    forall q | q in next.places && next.places[q].Updating? ensures HasRow(next.rows, next.places[q].name) {
      var name := next.places[q].name;
      if HasRow(w.rows, name) {
        RowStays(w, step, interval, name);
      } else {
        assert step.Insert? && q == step.p;
        assert next.rows[|w.rows|].name == name;
      }
    }
  }

  lemma StepClaims(w: World, step: Step, interval: string -> int)
    requires CanStep(w, step) && Sound(w, interval)
    ensures WorkingClaims(After(w, step, interval))
  {
    var next := After(w, step, interval);
    forall q | q in next.places && next.places[q].Working?
      ensures next.places[q].now in Times(next.claims, next.places[q].name)
    {
      if step.Update? {
        var place := w.places[step.p];
        UpdateWins(w, step.p, interval);
        TimesNext(w.claims, Claim(place.name, place.now), next.places[q].name);
        if q == step.p {
          assert next.places[q] == Working(place.name, place.now);
        }
      }
    }
  }

  lemma {:induction false} NoneLater(times: seq<int>, d: int, t: int)
    requires Apart(times, d) && d >= 0 && t in times
    ensures t <= times[|times| - 1]
  {
    var n := |times| - 1;
    if t != times[n] {
      assert times == times[..n] + [times[n]];
      assert Apart(times[..n], d) by {
        forall i | 0 <= i < n - 1 ensures times[..n][i] + d <= times[..n][i + 1] {
          assert times[i] + d <= times[i + 1];
        }
      }
      NoneLater(times[..n], d, t);
      assert times[n - 1] + d <= times[n - 1 + 1];
    }
  }

  /** A process that gets the turn does so at least the interval after any other still at work on the job. */
  lemma WinsAfter(w: World, p: nat, q: nat, interval: string -> int)
    requires Sound(w, interval) && ValidIntervals(interval) && CanStep(w, Update(p)) && Wins(w, p, interval)
    requires q in w.places && w.places[q].Working? && w.places[q].name == w.places[p].name
    ensures w.places[q].now + interval(w.places[p].name) <= w.places[p].now
  {
    var name := w.places[p].name;
    var times := Times(w.claims, name);
    assert Apart(times, interval(name));
    NoneLater(times, interval(name), w.places[q].now);
    assert Started(w.rows, name) == Last(times);
  }

  lemma StepOwns(w: World, step: Step, interval: string -> int)
    requires CanStep(w, step) && Sound(w, interval) && ValidIntervals(interval)
    ensures OwnClaims(After(w, step, interval), interval)
  {
    var next := After(w, step, interval);
    forall a, b | a in next.places && b in next.places && a != b
      ensures AtWorkApart(next.places[a], next.places[b], interval)
    {
      if step.Update? && (a == step.p || b == step.p) {
        var other := if a == step.p then b else a;
        UpdateWins(w, step.p, interval);
        if Wins(w, step.p, interval) && w.places[other].Working? && w.places[other].name == w.places[step.p].name {
          WinsAfter(w, step.p, other, interval);
        }
      } else if a in w.places && b in w.places {
        assert AtWorkApart(w.places[a], w.places[b], interval);
      }
    }
  }

  lemma StepKeeps(w: World, step: Step, interval: string -> int)
    requires CanStep(w, step) && Sound(w, interval) && ValidIntervals(interval)
    ensures Sound(After(w, step, interval), interval)
  {
    NamesKept(w, step, interval);
    forall name
      ensures Started(After(w, step, interval).rows, name) == Last(Times(After(w, step, interval).claims, name))
    {
      StepRecords(w, step, interval, name);
    }
    forall name ensures Apart(Times(After(w, step, interval).claims, name), interval(name)) {
      StepSpaces(w, step, interval, name);
    }
    StepRows(w, step, interval);
    StepClaims(w, step, interval);
    StepOwns(w, step, interval);
  }

  /** At every moment of every run: one row per job, which holds its last claim; claims of a job at least its interval
      apart; and two processes at work on one job only when one of them has been at it for the interval. */
  lemma {:induction false} RunKeeps(worlds: seq<World>, steps: seq<Step>, interval: string -> int, k: nat)
    requires IsRun(worlds, steps, interval) && ValidIntervals(interval) && k <= |steps|
    ensures Sound(worlds[k], interval)
  {
    if k > 0 {
      RunKeeps(worlds, steps, interval, k - 1);
      assert StepsAt(worlds, steps, interval, k - 1);
      StepKeeps(worlds[k - 1], steps[k - 1], interval);
    }
  }

  lemma {:induction false} ApartSpan(times: seq<int>, d: int, i: nat, j: nat)
    requires Apart(times, d) && i <= j < |times|
    ensures times[i] + (j - i) * d <= times[j]
  {
    if i < j {
      ApartSpan(times, d, i, j - 1);
      assert times[j - 1] + d <= times[j - 1 + 1];
      assert (j - i) * d == (j - 1 - i) * d + d;
    }
  }

  /** So many claims of a job take that many intervals but one. */
  lemma ClaimsSpan(worlds: seq<World>, steps: seq<Step>, interval: string -> int, k: nat, name: string, i: nat, j: nat)
    requires IsRun(worlds, steps, interval) && ValidIntervals(interval) && k <= |steps|
    requires i <= j < |Times(worlds[k].claims, name)|
    ensures Times(worlds[k].claims, name)[i] + (j - i) * interval(name) <= Times(worlds[k].claims, name)[j]
  {
    RunKeeps(worlds, steps, interval, k);
    assert Apart(Times(worlds[k].claims, name), interval(name));
    ApartSpan(Times(worlds[k].claims, name), interval(name), i, j);
  }

  // Contenders -----------------------------------------------------------------------------------------------

  /** The updates of this job between two moments all come from clocks less than the interval apart. */
  ghost predicate Close(worlds: seq<World>, steps: seq<Step>, from: nat, to: nat, name: string, low: int, interval: int)
    requires from <= to <= |steps| && |worlds| == |steps| + 1
  {
    forall k :: from <= k < to && Contends(worlds[k], steps[k], name) ==>
        low <= worlds[k].places[steps[k].p].now < low + interval
  }

  ghost predicate SomeDue(worlds: seq<World>, steps: seq<Step>, from: nat, to: nat, name: string, interval: int)
    requires from <= to <= |steps| && |worlds| == |steps| + 1
  {
    exists k :: from <= k < to && Contends(worlds[k], steps[k], name)
        && Due(Started(worlds[from].rows, name), worlds[k].places[steps[k].p].now, interval)
  }

  /** What the claims between two moments amount to: none while nobody was due, then exactly one. */
  ghost predicate OneAdded(worlds: seq<World>, steps: seq<Step>, from: nat, to: nat, name: string, interval: int,
                           low: int)
    requires from <= to <= |steps| && |worlds| == |steps| + 1
  {
    Grows(Times(worlds[from].claims, name), Times(worlds[to].claims, name),
          SomeDue(worlds, steps, from, to, name, interval), low, interval)
  }

  predicate Grows(before: seq<int>, after: seq<int>, due: bool, low: int, interval: int) {
    if due then |after| == |before| + 1 && after[..|before|] == before && low <= after[|before|] < low + interval
    else after == before
  }

  predicate Adds(before: seq<int>, after: seq<int>, contends: bool, now: int, interval: int) {
    after == before + if contends && Due(Last(before), now, interval) then [now] else []
  }

  lemma GrowsNext(before: seq<int>, mid: seq<int>, after: seq<int>, due: bool, contends: bool, now: int, low: int,
                  interval: int)
    requires Grows(before, mid, due, low, interval) && interval > 0
    requires contends ==> low <= now < low + interval
    requires Adds(mid, after, contends, now, interval)
    ensures Grows(before, after, due || (contends && Due(Last(before), now, interval)), low, interval)
  {
  }

  lemma {:induction false} ContendersUpTo(worlds: seq<World>, steps: seq<Step>, interval: string -> int, from: nat,
                                          to: nat, name: string, low: int)
    requires IsRun(worlds, steps, interval) && ValidIntervals(interval) && from <= to <= |steps|
    requires Close(worlds, steps, from, to, name, low, interval(name))
    ensures OneAdded(worlds, steps, from, to, name, interval(name), low)
  {
    if from < to {
      var k := to - 1;
      ContendersUpTo(worlds, steps, interval, from, k, name, low);
      DueNext(worlds, steps, from, to, name, interval(name));
      StepAdds(worlds, steps, interval, k, name);
      RunRecords(worlds, steps, interval, from, name);
      assert k + 1 == to;
      GrowsNext(Times(worlds[from].claims, name), Times(worlds[k].claims, name), Times(worlds[k + 1].claims, name),
                SomeDue(worlds, steps, from, k, name, interval(name)), Contends(worlds[k], steps[k], name),
                NowOf(worlds[k], steps[k], name), low, interval(name));
    }
  }

  function NowOf(w: World, step: Step, name: string): int {
    if Contends(w, step, name) then w.places[step.p].now else 0
  }

  lemma RunRecords(worlds: seq<World>, steps: seq<Step>, interval: string -> int, k: nat, name: string)
    requires IsRun(worlds, steps, interval) && ValidIntervals(interval) && k <= |steps|
    ensures Started(worlds[k].rows, name) == Last(Times(worlds[k].claims, name))
  {
    RunKeeps(worlds, steps, interval, k);
  }

  /** A step adds a claim of a job exactly when it is an update of that job by a process for which the row is due. */
  lemma StepAdds(worlds: seq<World>, steps: seq<Step>, interval: string -> int, k: nat, name: string)
    requires IsRun(worlds, steps, interval) && ValidIntervals(interval) && k < |steps|
    ensures Adds(Times(worlds[k].claims, name), Times(worlds[k + 1].claims, name), Contends(worlds[k], steps[k], name),
                 NowOf(worlds[k], steps[k], name), interval(name))
  {
    RunKeeps(worlds, steps, interval, k);
    RunRecords(worlds, steps, interval, k, name);
    assert StepsAt(worlds, steps, interval, k);
    StepTimes(worlds[k], steps[k], interval, name);
  }

  lemma DueNext(worlds: seq<World>, steps: seq<Step>, from: nat, to: nat, name: string, interval: int)
    requires from < to <= |steps| && |worlds| == |steps| + 1
    ensures SomeDue(worlds, steps, from, to, name, interval)
        <==> SomeDue(worlds, steps, from, to - 1, name, interval)
             || (Contends(worlds[to - 1], steps[to - 1], name)
                 && Due(Started(worlds[from].rows, name), NowOf(worlds[to - 1], steps[to - 1], name), interval))
  {
  }

  /** Of processes that try for one turn with clocks less than the interval apart, exactly one gets it when the row was
      due for any of them, and none otherwise, whatever else happens in between. */
  lemma OneWinner(worlds: seq<World>, steps: seq<Step>, interval: string -> int, from: nat, to: nat, name: string,
                  low: int)
    requires IsRun(worlds, steps, interval) && ValidIntervals(interval) && from <= to <= |steps|
    requires Close(worlds, steps, from, to, name, low, interval(name))
    ensures |Times(worlds[to].claims, name)| - |Times(worlds[from].claims, name)|
         == if SomeDue(worlds, steps, from, to, name, interval(name)) then 1 else 0
  {
    ContendersUpTo(worlds, steps, interval, from, to, name, low);
  }

  // At work on one job ------------------------------------------------------------------------------------------

  predicate BothAtWork(a: Place, b: Place) { a.Working? && b.Working? && a.name == b.name }

  /** No two processes are at work on one job. */
  predicate Alone(w: World) {
    forall p, q :: p in w.places && q in w.places && p != q ==> !BothAtWork(w.places[p], w.places[q])
  }

  predicate OtherAtWork(w: World, p: nat, name: string) {
    exists q :: q in w.places && q != p && w.places[q].Working? && w.places[q].name == name
  }

  /** An update finds the row due while another process is still at work on the job. */
  predicate TakesOver(w: World, step: Step, interval: string -> int)
    requires CanStep(w, step)
  {
    step.Update? && Wins(w, step.p, interval) && OtherAtWork(w, step.p, w.places[step.p].name)
  }

  lemma OthersStay(w: World, step: Step, interval: string -> int, q: nat)
    requires CanStep(w, step) && q != step.p
    ensures q in After(w, step, interval).places <==> q in w.places
    ensures q in w.places ==> After(w, step, interval).places[q] == w.places[q]
  {
  }

  lemma WorksAfter(w: World, step: Step, interval: string -> int)
    requires Sound(w, interval) && CanStep(w, step)
    ensures var next := After(w, step, interval);
            step.p in next.places && next.places[step.p].Working? ==>
              step.Update? && Wins(w, step.p, interval) && next.places[step.p].name == w.places[step.p].name
  {
    if step.Update? {
      UpdateWins(w, step.p, interval);
    }
  }

  lemma StepAlone(w: World, step: Step, interval: string -> int)
    requires Sound(w, interval) && CanStep(w, step) && Alone(w)
    ensures Alone(After(w, step, interval)) <==> !TakesOver(w, step, interval)
  {
    var next := After(w, step, interval);
    if TakesOver(w, step, interval) {
      var q :| q in w.places && q != step.p && w.places[q].Working? && w.places[q].name == w.places[step.p].name;
      UpdateWins(w, step.p, interval);
      OthersStay(w, step, interval, q);
      assert BothAtWork(next.places[step.p], next.places[q]);
    } else {
      WorksAfter(w, step, interval);
      forall a, b | a in next.places && b in next.places && a != b
        ensures !BothAtWork(next.places[a], next.places[b])
      {
        if a != step.p {
          OthersStay(w, step, interval, a);
        }
        if b != step.p {
          OthersStay(w, step, interval, b);
        }
        if a != step.p && b != step.p {
          assert !BothAtWork(w.places[a], w.places[b]);
        }
      }
    }
  }

  predicate AloneAt(worlds: seq<World>, k: nat)
    requires k < |worlds|
  {
    Alone(worlds[k])
  }

  predicate KeepsTurns(worlds: seq<World>, steps: seq<Step>, interval: string -> int, k: nat)
    requires |worlds| == |steps| + 1 && k < |steps|
  {
    CanStep(worlds[k], steps[k]) && !TakesOver(worlds[k], steps[k], interval)
  }

  lemma AloneStepAt(worlds: seq<World>, steps: seq<Step>, interval: string -> int, k: nat)
    requires IsRun(worlds, steps, interval) && ValidIntervals(interval) && k < |steps| && AloneAt(worlds, k)
    ensures AloneAt(worlds, k + 1) <==> KeepsTurns(worlds, steps, interval, k)
  {
    RunKeeps(worlds, steps, interval, k);
    assert StepsAt(worlds, steps, interval, k);
    StepAlone(worlds[k], steps[k], interval);
  }

  /** A job runs once at a time all along a run exactly when no update finds its row due while another process is still
      at work on the job. */
  lemma {:induction false} RunAlone(worlds: seq<World>, steps: seq<Step>, interval: string -> int, n: nat)
    requires IsRun(worlds, steps, interval) && ValidIntervals(interval) && n <= |steps|
    ensures (forall k: nat :: k <= n ==> AloneAt(worlds, k))
        <==> (forall k: nat :: k < n ==> KeepsTurns(worlds, steps, interval, k))
  {
    if n == 0 {
      assert AloneAt(worlds, 0);
    } else {
      RunAlone(worlds, steps, interval, n - 1);
      if AloneAt(worlds, n - 1) {
        AloneStepAt(worlds, steps, interval, n - 1);
      }
    }
  }

  /** The turn does not last until the work is done: a process may start while another is still at it, once the interval
      has passed since that one's claim. */
  lemma WorkMayOverlap(interval: string -> int, name: string) returns (worlds: seq<World>, steps: seq<Step>)
    requires ValidIntervals(interval)
    ensures IsRun(worlds, steps, interval)
    ensures PlaceOf(worlds[|steps|], 0) == Working(name, 0)
    ensures PlaceOf(worlds[|steps|], 1) == Working(name, interval(name))
  {
    var d := interval(name);
    steps := [Begin(0, name, 0), Insert(0), Update(0), Begin(1, name, d), Update(1)];
    var w0 := World([], map[], []);
    var w2 := FindsNoRow(w0, 0, name, 0, interval);
    var w3 := TakesTurn(w2, 0, Row(name, None, None, None), interval);
    var w4 := FindsRow(w3, 1, name, d, interval);
    var w5 := TakesTurn(w4, 1, w3.rows[0], interval);
    worlds := [w0, After(w0, steps[0], interval), w2, w3, w4, w5];
    forall k: nat | k < |steps| ensures StepsAt(worlds, steps, interval, k) {
      assert Goes(worlds[k], steps[k], worlds[k + 1], interval);
    }
  }

  ghost predicate Goes(w: World, step: Step, next: World, interval: string -> int) {
    CanStep(w, step) && next == After(w, step, interval)
  }

  lemma FindsNoRow(w: World, p: nat, name: string, now: int, interval: string -> int) returns (next: World)
    requires w.rows == [] && PlaceOf(w, p) == Idle
    ensures var mid := After(w, Begin(p, name, now), interval);
            Goes(w, Begin(p, name, now), mid, interval) && Goes(mid, Insert(p), next, interval)
    ensures next == World([Row(name, None, None, None)], w.places[p := Updating(name, now)], w.claims)
  {
    var mid := After(w, Begin(p, name, now), interval);
    assert !HasRow(w.rows, name);
    next := After(mid, Insert(p), interval);
    assert next.places == w.places[p := Updating(name, now)];
  }

  lemma FindsRow(w: World, p: nat, name: string, now: int, interval: string -> int) returns (next: World)
    requires |w.rows| == 1 && w.rows[0].name == name && PlaceOf(w, p) == Idle
    ensures Goes(w, Begin(p, name, now), next, interval)
    ensures next == w.(places := w.places[p := Updating(name, now)])
  {
    assert HasRow(w.rows, name);
    next := After(w, Begin(p, name, now), interval);
  }

  lemma TakesTurn(w: World, p: nat, row: Row, interval: string -> int) returns (next: World)
    requires w.rows == [row] && p in w.places && w.places[p].Updating? && w.places[p].name == row.name
    requires Due(row.started, w.places[p].now, interval(row.name))
    ensures Goes(w, Update(p), next, interval)
    ensures next.places == w.places[p := Working(row.name, w.places[p].now)]
    ensures next.rows == [row.(started := Some(w.places[p].now), status := Some(Running))]
  {
    assert [row][0].name == row.name;
    CountsOne([row], row.name, w.places[p].now, interval(row.name));
    next := After(w, Update(p), interval);
  }
}
