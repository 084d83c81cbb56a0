/** What holds of every delivery over every run of dispatches. */
module NotificationRuns {
  import opened Wrappers
  import opened Notification

  // One delivery ---------------------------------------------------------------------------------------

  /** Attempts k and k+1, counted from one, lie at least the delay doubled k-1 times apart. */
  predicate Spaced(attempts: seq<int>, config: Config) {
    forall k :: 0 <= k < |attempts| - 1 ==> attempts[k + 1] - attempts[k] >= config.retryDelay * Pow2(k)
  }

  predicate WellKept(d: Delivery, config: Config) {
    && |d.attempts| == d.retryCount + (if d.status == Sent then 1 else 0)
    && |d.attempts| <= config.retryMax + 1
    && Spaced(d.attempts, config)
    && (d.status == Pending ==> d.retryCount == 0)
    && (d.status == Failed ==>
          && d.retryCount > 0
          && d.nextAttemptAt == Some(d.attempts[|d.attempts| - 1] + RetryDelay(d.retryCount, config)))
    && (d.status == Sent ==> d.sentAt == Some(d.attempts[|d.attempts| - 1]))
  }

  lemma AttemptSpaced(d: Delivery, now: int, config: Config)
    requires WellKept(d, config) && Due(d, now, config)
    ensures Spaced(d.attempts + [now], config)
  {
    var after := d.attempts + [now];
    forall k | 0 <= k < |after| - 1 ensures after[k + 1] - after[k] >= config.retryDelay * Pow2(k) {
      if k == |d.attempts| - 1 {
        assert RetryDelay(d.retryCount, config) == config.retryDelay * Pow2(k);
      }
    }
  }

  lemma ApplyKeeps(d: Delivery, verdict: Verdict, now: int, config: Config)
    requires WellKept(d, config) && (verdict != Collect ==> Due(d, now, config))
    ensures WellKept(Apply(d, verdict, now, config), config)
  {
    if verdict == Send || verdict == Fail {
      AttemptSpaced(d, now, config);
    }
  }

  /** From the first attempt to a later one passes at least the sum of the delays in between. */
  lemma {:induction false} AttemptsSpan(attempts: seq<int>, n: nat, config: Config)
    requires Spaced(attempts, config) && n < |attempts|
    ensures attempts[n] - attempts[0] >= config.retryDelay * (Pow2(n) - 1)
  {
    if n > 0 {
      AttemptsSpan(attempts, n - 1, config);
      assert attempts[n - 1 + 1] - attempts[n - 1] >= config.retryDelay * Pow2(n - 1);
      Doubling(config.retryDelay, Pow2(n - 1));
    }
  }

  lemma Doubling(d: nat, p: int)
    ensures d * (p - 1) + d * p == d * (2 * p - 1)
  {
  }

  // Runs -----------------------------------------------------------------------------------------------

  datatype Step =
    | Raise(event: nat, channel: Option<nat>, recipient: string, createdAt: int)
    | Dispatch(turn: Turn)
    | DeleteChannel(id: nat)

  predicate ValidStep(rows: seq<Delivery>, step: Step, config: Config) {
    step.Dispatch? ==> IsFetch(step.turn.fetched, rows, step.turn.now, config)
  }

  function After(rows: seq<Delivery>, step: Step, config: Config): seq<Delivery>
    requires ValidStep(rows, step, config)
  {
    match step
    case Raise(event, channel, recipient, createdAt) =>
      rows + [Delivery(event, channel, recipient, createdAt, Pending, 0, None, None, [], true)]
    case Dispatch(turn) => Dispatched(rows, turn, config)
    case DeleteChannel(id) => WithoutChannel(rows, id)
  }

  /** The deliveries of a channel are deleted with it. */
  function WithoutChannel(rows: seq<Delivery>, id: nat): (after: seq<Delivery>)
    ensures |after| == |rows|
  {
    seq(|rows|, i requires 0 <= i < |rows| =>
      if rows[i].channel == Some(id) then rows[i].(present := false) else rows[i])
  }

  /** states[k] holds the deliveries before step k. Alerts, channels and wishes change freely between steps, and
      the clock may go back. */
  predicate IsRun(states: seq<seq<Delivery>>, steps: seq<Step>, config: Config) {
    && |states| == |steps| + 1 && states[0] == []
    && forall k :: 0 <= k < |steps| ==>
         ValidStep(states[k], steps[k], config) && states[k + 1] == After(states[k], steps[k], config)
  }

  predicate AllWellKept(rows: seq<Delivery>, config: Config) {
    forall i :: 0 <= i < |rows| ==> WellKept(rows[i], config)
  }

  lemma StepKeeps(rows: seq<Delivery>, step: Step, config: Config)
    requires ValidStep(rows, step, config) && AllWellKept(rows, config)
    ensures AllWellKept(After(rows, step, config), config)
  {
    if step.Dispatch? {
      forall i | 0 <= i < |rows| ensures WellKept(After(rows, step, config)[i], config) {
        FetchedIsDue(rows, i, step.turn, config);
        ApplyKeeps(rows[i], Judge(i, rows, step.turn, config), step.turn.now, config);
      }
    }
  }

  lemma FetchedIsDue(rows: seq<Delivery>, i: nat, turn: Turn, config: Config)
    requires IsFetch(turn.fetched, rows, turn.now, config) && i < |rows|
    ensures Judge(i, rows, turn, config) != Collect ==> Due(rows[i], turn.now, config)
  {
    if i in turn.fetched {
      var k :| 0 <= k < |turn.fetched| && turn.fetched[k] == i;
    }
  }

  /** In every reachable state every delivery has been tried at most once more than the retries allowed, with the
      growing pauses between its attempts. */
  lemma {:induction false} RunKeeps(states: seq<seq<Delivery>>, steps: seq<Step>, config: Config, k: nat)
    requires IsRun(states, steps, config) && k <= |steps|
    ensures AllWellKept(states[k], config)
  {
    if k > 0 {
      RunKeeps(states, steps, config, k - 1);
      StepKeeps(states[k - 1], steps[k - 1], config);
    }
  }

  predicate IsFinal(status: Status) { status == Sent || status == Skipped }

  /** The step deletes the channel of the delivery. */
  predicate Deletes(step: Step, d: Delivery) { step.DeleteChannel? && d.channel == Some(step.id) }

  lemma StepRow(rows: seq<Delivery>, step: Step, config: Config, i: nat)
    requires ValidStep(rows, step, config) && i < |rows|
    ensures var after := After(rows, step, config);
            && i < |after| && after[i].channel == rows[i].channel
            && (after[i].present <==> rows[i].present && !Deletes(step, rows[i]))
            && (IsFinal(rows[i].status) ==> after[i].(present := true) == rows[i].(present := true))
  {
    if step.Dispatch? {
      FetchedIsDue(rows, i, step.turn, config);
    }
  }

  /** Sent and skipped deliveries never change again, and no delivery disappears but with its channel. */
  lemma {:induction false} FinalStays(states: seq<seq<Delivery>>, steps: seq<Step>, config: Config, k: nat, m: nat,
                                      i: nat)
    requires IsRun(states, steps, config) && k <= m <= |steps| && i < |states[k]|
    ensures i < |states[m]| && states[m][i].channel == states[k][i].channel
    ensures states[m][i].present
        <==> states[k][i].present && forall j :: k <= j < m ==> !Deletes(steps[j], states[k][i])
    ensures IsFinal(states[k][i].status) ==> states[m][i].(present := true) == states[k][i].(present := true)
  {
    if k < m {
      FinalStays(states, steps, config, k, m - 1, i);
      StepRow(states[m - 1], steps[m - 1], config, i);
    }
  }

  predicate SendsAt(states: seq<seq<Delivery>>, k: nat, i: nat)
    requires k + 1 < |states|
  {
    i < |states[k]| && i < |states[k + 1]| && states[k][i].status != Sent && states[k + 1][i].status == Sent
  }

  /** A delivery goes out in at most one step of a run. */
  lemma SentOnce(states: seq<seq<Delivery>>, steps: seq<Step>, config: Config, k: nat, m: nat, i: nat)
    requires IsRun(states, steps, config) && k < |steps| && m < |steps|
    requires SendsAt(states, k, i) && SendsAt(states, m, i)
    ensures k == m
  {
    if k < m {
      FinalStays(states, steps, config, k + 1, m, i);
    } else if m < k {
      FinalStays(states, steps, config, m + 1, k, i);
    }
  }

  // One dispatch ------------------------------------------------------------------------------------------

  /** Deliveries of one mail share its outcome. */
  lemma BundleTogether(rows: seq<Delivery>, turn: Turn, config: Config, i: nat, j: nat)
    requires IsFetch(turn.fetched, rows, turn.now, config) && i in turn.fetched && j in turn.fetched
    requires i < |rows| && j < |rows|
    requires !Blocked(rows[i], turn.world) && !Blocked(rows[j], turn.world)
    requires !Closed(rows[i], turn.world, config) && !Closed(rows[j], turn.world, config)
    requires MailboxOf(rows[i], turn.world, config).Some?
    requires MailboxOf(rows[i], turn.world, config) == MailboxOf(rows[j], turn.world, config)
    ensures Judge(i, rows, turn, config) == Judge(j, rows, turn, config)
  {
  }

  lemma RipeMember(rows: seq<Delivery>, turn: Turn, config: Config, i: nat)
    requires ValidTurn(rows, turn) && i in turn.fetched && i < |rows|
    requires turn.now - rows[i].createdAt >= config.bundleSeconds
    ensures Judge(i, rows, turn, config) != Collect
  {
    if !Blocked(rows[i], turn.world) {
      var mailbox := MailboxOf(rows[i], turn.world, config);
      var members := Members(turn.fetched, mailbox, rows, turn, config);
      MembersWithin(turn.fetched, mailbox, rows, turn, config);
      assert i in members;
      var k :| 0 <= k < |members| && members[k] == i;
    }
  }

  /** A dispatch at which some due delivery is a window old handles the oldest due delivery. */
  lemma OldestHandled(rows: seq<Delivery>, turn: Turn, config: Config, old_: nat)
    requires IsFetch(turn.fetched, rows, turn.now, config) && config.batchSize > 0
    requires old_ < |rows| && Due(rows[old_], turn.now, config)
    requires turn.now - rows[old_].createdAt >= config.bundleSeconds
    ensures turn.fetched != [] && turn.fetched[0] < |rows|
    ensures Judge(turn.fetched[0], rows, turn, config) != Collect
    ensures forall i :: 0 <= i < |rows| && Due(rows[i], turn.now, config) ==>
      rows[turn.fetched[0]].createdAt <= rows[i].createdAt
  {
    OldestFirst(rows, turn, config, old_);
    forall i | 0 <= i < |rows| && Due(rows[i], turn.now, config)
      ensures rows[turn.fetched[0]].createdAt <= rows[i].createdAt
    {
      OldestFirst(rows, turn, config, i);
    }
    RipeMember(rows, turn, config, turn.fetched[0]);
  }

  lemma OldestFirst(rows: seq<Delivery>, turn: Turn, config: Config, i: nat)
    requires IsFetch(turn.fetched, rows, turn.now, config) && config.batchSize > 0
    requires i < |rows| && Due(rows[i], turn.now, config)
    ensures turn.fetched != [] && rows[turn.fetched[0]].createdAt <= rows[i].createdAt
  {
    if i in turn.fetched {
      var k :| 0 <= k < |turn.fetched| && turn.fetched[k] == i;
    }
  }

  // Every handled delivery costs an attempt ----------------------------------------------------------------

  function Remaining(d: Delivery, config: Config): nat {
    if !d.present then 0
    else if d.status == Pending then config.retryMax + 1
    else if d.status == Failed && d.retryCount <= config.retryMax then config.retryMax + 1 - d.retryCount
    else 0
  }

  function TotalRemaining(rows: seq<Delivery>, config: Config): nat {
    if rows == [] then 0
    else TotalRemaining(rows[..|rows| - 1], config) + Remaining(rows[|rows| - 1], config)
  }

  /** How many of the first n deliveries a dispatch handles. */
  function Handled(verdicts: seq<Verdict>, n: nat): nat
    requires n <= |verdicts|
  {
    if n == 0 then 0 else Handled(verdicts, n - 1) + (if verdicts[n - 1] == Collect then 0 else 1)
  }

  lemma TotalNext(rows: seq<Delivery>, n: nat, config: Config)
    requires n < |rows|
    ensures TotalRemaining(rows[..n + 1], config) == TotalRemaining(rows[..n], config) + Remaining(rows[n], config)
  {
    assert rows[..n + 1][..n] == rows[..n];
  }

  lemma RowSpends(rows: seq<Delivery>, turn: Turn, config: Config, i: nat)
    requires IsFetch(turn.fetched, rows, turn.now, config) && i < |rows| && WellKept(rows[i], config)
    ensures Remaining(Dispatched(rows, turn, config)[i], config)
            + (if Verdicts(rows, turn, config)[i] == Collect then 0 else 1)
         <= Remaining(rows[i], config)
  {
    FetchedIsDue(rows, i, turn, config);
  }

  lemma {:induction false} RowsSpend(rows: seq<Delivery>, after: seq<Delivery>, verdicts: seq<Verdict>, config: Config,
                                     n: nat)
    requires |after| == |rows| == |verdicts| && n <= |rows|
    requires forall i :: 0 <= i < |rows| ==>
      Remaining(after[i], config) + (if verdicts[i] == Collect then 0 else 1) <= Remaining(rows[i], config)
    ensures TotalRemaining(after[..n], config) + Handled(verdicts, n) <= TotalRemaining(rows[..n], config)
  {
    if n > 0 {
      RowsSpend(rows, after, verdicts, config, n - 1);
      TotalNext(after, n - 1, config);
      TotalNext(rows, n - 1, config);
    }
  }

  /** Every handled delivery takes at least one of the attempts still allowed. */
  lemma DispatchSpends(rows: seq<Delivery>, turn: Turn, config: Config)
    requires IsFetch(turn.fetched, rows, turn.now, config) && AllWellKept(rows, config)
    ensures TotalRemaining(Dispatched(rows, turn, config), config) + Handled(Verdicts(rows, turn, config), |rows|)
         <= TotalRemaining(rows, config)
  {
    var after, verdicts := Dispatched(rows, turn, config), Verdicts(rows, turn, config);
    forall i | 0 <= i < |rows|
      ensures Remaining(after[i], config) + (if verdicts[i] == Collect then 0 else 1) <= Remaining(rows[i], config)
    {
      RowSpends(rows, turn, config, i);
    }
    RowsSpend(rows, after, verdicts, config, |rows|);
    assert rows[..|rows|] == rows && after[..|rows|] == after;
  }

  function HandledBy(rows: seq<Delivery>, step: Step, config: Config): nat
    requires ValidStep(rows, step, config)
  {
    if step.Dispatch? then Handled(Verdicts(rows, step.turn, config), |rows|) else 0
  }

  lemma StepSpends(rows: seq<Delivery>, step: Step, config: Config)
    requires ValidStep(rows, step, config) && AllWellKept(rows, config)
    ensures TotalRemaining(After(rows, step, config), config) + HandledBy(rows, step, config)
         <= TotalRemaining(rows, config) + if step.Raise? then config.retryMax + 1 else 0
  {
    var after := After(rows, step, config);
    match step
    case Dispatch(turn) => DispatchSpends(rows, turn, config);
    case Raise(_, _, _, _) => assert after[..|rows|] == rows;
    case DeleteChannel(id) => DeletingSpends(rows, id, config);
  }

  lemma {:induction false} DeletingSpends(rows: seq<Delivery>, id: nat, config: Config)
    ensures TotalRemaining(WithoutChannel(rows, id), config) <= TotalRemaining(rows, config)
  {
    if rows != [] {
      var n := |rows| - 1;
      assert WithoutChannel(rows, id)[..n] == WithoutChannel(rows[..n], id);
      DeletingSpends(rows[..n], id, config);
    }
  }

  function HandledIn(states: seq<seq<Delivery>>, steps: seq<Step>, config: Config, k: nat): nat
    requires IsRun(states, steps, config) && k <= |steps|
  {
    if k == 0 then 0
    else HandledIn(states, steps, config, k - 1) + HandledBy(states[k - 1], steps[k - 1], config)
  }

  /** Over a whole run, everything handled and everything still to try together never exceed one first attempt and
      the allowed retries for each delivery raised. */
  lemma {:induction false} RunSpends(states: seq<seq<Delivery>>, steps: seq<Step>, config: Config, k: nat)
    requires IsRun(states, steps, config) && k <= |steps|
    ensures TotalRemaining(states[k], config) + HandledIn(states, steps, config, k)
         <= (config.retryMax + 1) * |states[k]|
  {
    if k > 0 {
      RunSpends(states, steps, config, k - 1);
      RunKeeps(states, steps, config, k - 1);
      StepSpends(states[k - 1], steps[k - 1], config);
      OneMore(config.retryMax + 1, |states[k - 1]|);
    }
  }

  lemma OneMore(a: nat, n: nat)
    ensures a * (n + 1) == a * n + a
  {
  }
}
