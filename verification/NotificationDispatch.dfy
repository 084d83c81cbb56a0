/** The dispatch as the program runs it: one pass that sorts deliveries into singles and mailboxes, then sends. */
module NotificationDispatch {
  import opened Wrappers
  import opened Notification

  /** How many of the ids got the verdict. */
  function Tally(ids: seq<nat>, verdict: Verdict, verdicts: seq<Verdict>): nat {
    if ids == [] then 0
    else
      var last := ids[|ids| - 1];
      Tally(ids[..|ids| - 1], verdict, verdicts) + (if last < |verdicts| && verdicts[last] == verdict then 1 else 0)
  }

  class Outbox {
    var rows: seq<Delivery>
    var sent: nat
    var failed: nat
    var skipped: nat

    constructor (rows: seq<Delivery>)
      ensures this.rows == rows
    {
      this.rows := rows;
    }

    method SkipOne(i: nat)
      requires i < |rows|
      modifies this`rows, this`skipped
      ensures rows == old(rows)[i := old(rows)[i].(status := Skipped)]
      ensures skipped == old(skipped) + 1
    {
      rows := rows[i := rows[i].(status := Skipped)];
      skipped := skipped + 1;
    }

    method SkipIfClosed(i: nat, world: World, config: Config) returns (closed: bool)
      requires i < |rows|
      modifies this`rows, this`skipped
      ensures closed == Closed(old(rows)[i], world, config)
      ensures rows == if closed then old(rows)[i := old(rows)[i].(status := Skipped)] else old(rows)
      ensures skipped == old(skipped) + if closed then 1 else 0
    {
      closed := world.alert(rows[i].event) in config.skipStatuses;
      if closed {
        SkipOne(i);
      }
    }

    method MarkFailed(i: nat, now: int, config: Config)
      requires i < |rows|
      modifies this`rows
      ensures rows == old(rows)[i := Recorded(old(rows)[i], false, now, config)]
    {
      var d := rows[i];
      d := d.(status := Failed, retryCount := d.retryCount + 1, attempts := d.attempts + [now]);
      rows := rows[i := d.(nextAttemptAt := Some(now + RetryDelay(d.retryCount, config)))];
    }

    /** Every member ends with the same outcome and time of attempt, and no other row changes. */
    method Attempt(members: seq<nat>, ok: bool, now: int, config: Config)
      requires Distinct(members) && InRange(members, rows)
      modifies this`rows, this`sent, this`failed
      ensures |rows| == |old(rows)|
      ensures forall i :: 0 <= i < |rows| ==>
        rows[i] == if i in members then Recorded(old(rows)[i], ok, now, config) else old(rows)[i]
      ensures sent == old(sent) + (if ok then |members| else 0)
      ensures failed == old(failed) + (if ok then 0 else |members|)
    {
      for k := 0 to |members|
        invariant |rows| == |old(rows)| && sent == old(sent) && failed == old(failed)
        invariant forall i :: 0 <= i < |rows| ==>
          rows[i] == if i in members[..k] then Recorded(old(rows)[i], ok, now, config) else old(rows)[i]
      {
        assert members[k] !in members[..k];
        assert members[..k + 1] == members[..k] + [members[k]];
        if ok {
          var d := rows[members[k]];
          rows := rows[members[k] := d.(status := Sent, sentAt := Some(now), nextAttemptAt := None,
                                        attempts := d.attempts + [now])];
        } else {
          MarkFailed(members[k], now, config);
        }
      }
      assert members[..|members|] == members;
      if ok {
        sent := sent + |members|;
      } else {
        failed := failed + |members|;
      }
    }

    function Counters(): (nat, nat, nat)
      reads this
    {
      (sent, failed, skipped)
    }

    /** Skip or send the deliveries that are not collected. */
    method SendSingles(singles: seq<nat>, ghost done: seq<nat>, ghost before: seq<Delivery>,
                       ghost verdicts: seq<Verdict>, turn: Turn, config: Config)
      requires Progress(rows, Counters(), done, before, verdicts, turn.now, config)
      requires Distinct(done + singles)
      requires forall k :: 0 <= k < |singles| ==> IsSingle(singles[k], before, verdicts, turn, config)
      modifies this
      ensures Progress(rows, Counters(), done + singles, before, verdicts, turn.now, config)
    {
      ghost var taken := done;
      assert taken == done + singles[..0];
      for k := 0 to |singles|
        invariant taken == done + singles[..k]
        invariant Progress(rows, Counters(), taken, before, verdicts, turn.now, config)
      {
        taken := SendNext(singles, k, done, taken, before, verdicts, turn, config);
      }
      assert singles[..|singles|] == singles;
    }

    method SendNext(singles: seq<nat>, k: nat, ghost done: seq<nat>, ghost taken: seq<nat>, ghost before: seq<Delivery>,
                    ghost verdicts: seq<Verdict>, turn: Turn, config: Config)
      returns (ghost more: seq<nat>)
      requires Progress(rows, Counters(), taken, before, verdicts, turn.now, config)
      requires k < |singles| && Distinct(done + singles) && taken == done + singles[..k]
      requires IsSingle(singles[k], before, verdicts, turn, config)
      modifies this
      ensures more == done + singles[..k + 1]
      ensures Progress(rows, Counters(), more, before, verdicts, turn.now, config)
    {
      NotYet(done, singles, k);
      SendSingle(singles[k], taken, before, verdicts, turn, config);
      more := taken + [singles[k]];
    }

    method SendSingle(i: nat, ghost done: seq<nat>, ghost before: seq<Delivery>, ghost verdicts: seq<Verdict>,
                      turn: Turn, config: Config)
      requires Progress(rows, Counters(), done, before, verdicts, turn.now, config)
      requires i !in done && IsSingle(i, before, verdicts, turn, config)
      modifies this
      ensures Progress(rows, Counters(), done + [i], before, verdicts, turn.now, config)
    {
      ghost var rows0, counters0 := rows, Counters();
      var closed := SkipIfClosed(i, turn.world, config);
      if !closed {
        Attempt([i], turn.succeeds([i]), turn.now, config);
      }
      TakeMany(rows0, counters0, done, [i], verdicts[i], rows, Counters(), before, verdicts, turn.now, config);
    }

    /** The members of a ripe mailbox whose alerts are still open; the others are skipped on the way. */
    method SkipClosedMembers(members: seq<nat>, ghost done: seq<nat>, ghost before: seq<Delivery>,
                             ghost verdicts: seq<Verdict>, turn: Turn, config: Config)
      returns (open: seq<nat>)
      requires Progress(rows, Counters(), done, before, verdicts, turn.now, config)
      requires Distinct(done + members) && InRange(members, before)
      requires forall k :: 0 <= k < |members| ==> IsMember(members[k], before, verdicts, turn, config)
      modifies this`rows, this`skipped
      ensures open == OpenOnes(members, before, turn, config)
      ensures Progress(rows, Counters(), done + ClosedOnes(members, before, turn, config), before, verdicts, turn.now,
                       config)
    {
      open := [];
      assert members[..0] == [] && done + ClosedOnes([], before, turn, config) == done;
      for k := 0 to |members|
        invariant InRange(members[..k], before) && open == OpenOnes(members[..k], before, turn, config)
        invariant Progress(rows, Counters(), done + ClosedOnes(members[..k], before, turn, config), before, verdicts,
                           turn.now, config)
      {
        ghost var taken := done + ClosedOnes(members[..k], before, turn, config);
        NextMember(members, k, done, before, turn, config);
        var closed := SkipMember(members[k], taken, before, verdicts, turn, config);
        if !closed {
          open := open + [members[k]];
        }
      }
      assert members[..|members|] == members;
    }

    method SkipMember(i: nat, ghost done: seq<nat>, ghost before: seq<Delivery>, ghost verdicts: seq<Verdict>,
                      turn: Turn, config: Config)
      returns (closed: bool)
      requires Progress(rows, Counters(), done, before, verdicts, turn.now, config)
      requires i !in done && IsMember(i, before, verdicts, turn, config)
      modifies this`rows, this`skipped
      ensures closed == Closed(before[i], turn.world, config)
      ensures Progress(rows, Counters(), if closed then done + [i] else done, before, verdicts, turn.now, config)
    {
      ghost var rows0, counters0 := rows, Counters();
      closed := SkipIfClosed(i, turn.world, config);
      if closed {
        TakeMany(rows0, counters0, done, [i], Skip, rows, Counters(), before, verdicts, turn.now, config);
      }
    }

    /** One mailbox: still collecting, or sent as one mail without the members whose alerts were closed. */
    method SendMailbox(members: seq<nat>, ghost done: seq<nat>, ghost before: seq<Delivery>,
                       ghost verdicts: seq<Verdict>, turn: Turn, config: Config)
      returns (ghost taken: seq<nat>)
      requires Progress(rows, Counters(), done, before, verdicts, turn.now, config)
      requires Distinct(done + members) && InRange(members, before)
      requires MailboxVerdicts(members, before, verdicts, turn, config)
      modifies this
      ensures Distinct(done + taken) && SameIds(taken, members)
      ensures Progress(rows, Counters(), done + taken, before, verdicts, turn.now, config)
    {
      NoneTaken(done, members);
      assert forall k :: 0 <= k < |members| ==> rows[members[k]] == before[members[k]];
      if Ripe(members, rows, turn, config) {
        taken := SendRipe(members, done, before, verdicts, turn, config);
      } else {
        taken := members;
        TakeMany(rows, Counters(), done, members, Collect, rows, Counters(), before, verdicts, turn.now, config);
      }
    }

    method SendRipe(members: seq<nat>, ghost done: seq<nat>, ghost before: seq<Delivery>,
                    ghost verdicts: seq<Verdict>, turn: Turn, config: Config)
      returns (ghost taken: seq<nat>)
      requires Progress(rows, Counters(), done, before, verdicts, turn.now, config)
      requires Distinct(members) && Distinct(done + members) && InRange(members, before)
      requires MailboxVerdicts(members, before, verdicts, turn, config) && Ripe(members, before, turn, config)
      modifies this
      ensures Distinct(done + taken) && SameIds(taken, members)
      ensures Progress(rows, Counters(), done + taken, before, verdicts, turn.now, config)
    {
      var open := SkipClosedMembers(members, done, before, verdicts, turn, config);
      ghost var closed := ClosedOnes(members, before, turn, config);
      taken := closed + open;
      Reordered(done, members, before, turn, config);
      assert done + taken == done + closed + open;
      if open == [] {
        assert done + taken == done + closed;
      } else {
        assert Distinct(done + closed + open) && InRange(open, before);
        assert forall k :: 0 <= k < |open| ==>
            open[k] < |verdicts| && verdicts[open[k]] == if turn.succeeds(open) then Send else Fail by {
          OpenVerdicts(members, before, verdicts, turn, config);
        }
        SendOpen(open, done + closed, before, verdicts, turn, config);
      }
    }

    method SendOpen(open: seq<nat>, ghost done: seq<nat>, ghost before: seq<Delivery>, ghost verdicts: seq<Verdict>,
                    turn: Turn, config: Config)
      requires Progress(rows, Counters(), done, before, verdicts, turn.now, config)
      requires Distinct(done + open) && InRange(open, before)
      requires forall k :: 0 <= k < |open| ==>
        open[k] < |verdicts| && verdicts[open[k]] == if turn.succeeds(open) then Send else Fail
      modifies this
      ensures Progress(rows, Counters(), done + open, before, verdicts, turn.now, config)
    {
      NoneTaken(done, open);
      ghost var rows0, counters0 := rows, Counters();
      var ok := turn.succeeds(open);
      Attempt(open, ok, turn.now, config);
      TakeMany(rows0, counters0, done, open, if ok then Send else Fail, rows, Counters(), before, verdicts, turn.now,
               config);
    }

    /** First pass: skip what is blocked, put the rest into singles and mailboxes. */
    method Sort(ghost before: seq<Delivery>, ghost verdicts: seq<Verdict>, turn: Turn, config: Config)
      returns (singles: seq<nat>, mailboxes: map<Mailbox, seq<nat>>, order: seq<Mailbox>)
      requires ValidTurn(before, turn) && verdicts == Verdicts(before, turn, config)
      requires Progress(rows, Counters(), [], before, verdicts, turn.now, config)
      modifies this`rows, this`skipped
      ensures Sorted(singles, mailboxes, order, turn.fetched, before, turn, config)
      ensures Progress(rows, Counters(), BlockedOnes(turn.fetched, before, turn), before, verdicts, turn.now, config)
    {
      singles, mailboxes, order := [], map[], [];
      for k := 0 to |turn.fetched|
        invariant InRange(turn.fetched[..k], before)
        invariant Sorted(singles, mailboxes, order, turn.fetched[..k], before, turn, config)
        invariant Progress(rows, Counters(), BlockedOnes(turn.fetched[..k], before, turn), before, verdicts, turn.now,
                           config)
      {
        singles, mailboxes, order := SortNext(k, singles, mailboxes, order, before, verdicts, turn, config);
      }
      assert turn.fetched[..|turn.fetched|] == turn.fetched;
    }

    method SortNext(k: nat, singles0: seq<nat>, mailboxes0: map<Mailbox, seq<nat>>, order0: seq<Mailbox>,
                    ghost before: seq<Delivery>, ghost verdicts: seq<Verdict>, turn: Turn, config: Config)
      returns (singles: seq<nat>, mailboxes: map<Mailbox, seq<nat>>, order: seq<Mailbox>)
      requires ValidTurn(before, turn) && verdicts == Verdicts(before, turn, config)
      requires k < |turn.fetched| && InRange(turn.fetched[..k], before)
      requires Sorted(singles0, mailboxes0, order0, turn.fetched[..k], before, turn, config)
      requires Progress(rows, Counters(), BlockedOnes(turn.fetched[..k], before, turn), before, verdicts, turn.now,
                        config)
      modifies this`rows, this`skipped
      ensures InRange(turn.fetched[..k + 1], before)
      ensures Sorted(singles, mailboxes, order, turn.fetched[..k + 1], before, turn, config)
      ensures Progress(rows, Counters(), BlockedOnes(turn.fetched[..k + 1], before, turn), before, verdicts, turn.now,
                       config)
    {
      NextFetched(turn.fetched, k, before, turn);
      assert turn.fetched[..k + 1] == turn.fetched[..k] + [turn.fetched[k]];
      BlockedVerdict(turn.fetched[k], before, verdicts, turn, config);
      singles, mailboxes, order :=
        SortOne(turn.fetched[k], singles0, mailboxes0, order0, turn.fetched[..k], before, verdicts, turn, config);
    }

    method SortOne(i: nat, singles0: seq<nat>, mailboxes0: map<Mailbox, seq<nat>>, order0: seq<Mailbox>,
                   ghost ids: seq<nat>, ghost before: seq<Delivery>, ghost verdicts: seq<Verdict>, turn: Turn,
                   config: Config)
      returns (singles: seq<nat>, mailboxes: map<Mailbox, seq<nat>>, order: seq<Mailbox>)
      requires i < |before| == |verdicts| && InRange(ids, before) && i !in BlockedOnes(ids, before, turn)
      requires Blocked(before[i], turn.world) ==> verdicts[i] == Skip
      requires Sorted(singles0, mailboxes0, order0, ids, before, turn, config)
      requires Progress(rows, Counters(), BlockedOnes(ids, before, turn), before, verdicts, turn.now, config)
      modifies this`rows, this`skipped
      ensures InRange(ids + [i], before)
      ensures Sorted(singles, mailboxes, order, ids + [i], before, turn, config)
      ensures Progress(rows, Counters(), BlockedOnes(ids, before, turn)
                       + if Blocked(before[i], turn.world) then [i] else [], before, verdicts, turn.now, config)
    {
      singles, mailboxes, order := singles0, mailboxes0, order0;
      assert rows[i] == before[i];
      if Blocked(rows[i], turn.world) {
        SkipBlocked(i, BlockedOnes(ids, before, turn), before, verdicts, turn, config);
        SortedBlocked(singles, mailboxes, order, ids, i, before, turn, config);
      } else {
        singles, mailboxes, order := FileOne(i, singles, mailboxes, order, ids, before, turn, config);
        assert BlockedOnes(ids, before, turn) + [] == BlockedOnes(ids, before, turn);
      }
    }

    method SkipBlocked(i: nat, ghost done: seq<nat>, ghost before: seq<Delivery>, ghost verdicts: seq<Verdict>,
                       ghost turn: Turn, ghost config: Config)
      requires i < |before| == |verdicts| && i !in done && verdicts[i] == Skip
      requires Progress(rows, Counters(), done, before, verdicts, turn.now, config)
      modifies this`rows, this`skipped
      ensures Progress(rows, Counters(), done + [i], before, verdicts, turn.now, config)
    {
      ghost var rows0, counters0 := rows, Counters();
      SkipOne(i);
      TakeMany(rows0, counters0, done, [i], Skip, rows, Counters(), before, verdicts, turn.now, config);
    }

    /** Put a delivery to the singles or to those of its mailbox. */
    method FileOne(i: nat, singles0: seq<nat>, mailboxes0: map<Mailbox, seq<nat>>, order0: seq<Mailbox>,
                   ghost ids: seq<nat>, ghost before: seq<Delivery>, turn: Turn, config: Config)
      returns (singles: seq<nat>, mailboxes: map<Mailbox, seq<nat>>, order: seq<Mailbox>)
      requires i < |before| && i < |rows| && rows[i] == before[i] && InRange(ids, before)
      requires !Blocked(before[i], turn.world)
      requires Sorted(singles0, mailboxes0, order0, ids, before, turn, config)
      ensures InRange(ids + [i], before)
      ensures Sorted(singles, mailboxes, order, ids + [i], before, turn, config)
    {
      singles, mailboxes, order := singles0, mailboxes0, order0;
      var target := MailboxOf(rows[i], turn.world, config);
      if target.None? {
        SortedSingle(singles, mailboxes, order, ids, i, before, turn, config);
        singles := singles + [i];
      } else {
        SortedMailbox(singles, mailboxes, order, ids, i, target.value, before, turn, config);
        if target.value !in mailboxes {
          order := order + [target.value];
          mailboxes := mailboxes[target.value := [i]];
        } else {
          mailboxes := mailboxes[target.value := mailboxes[target.value] + [i]];
        }
      }
    }

    /** The dispatch of the program has exactly the effect of the row-by-row definition; the counters count the
        fetched deliveries sent, failed and skipped. */
    method DispatchPending(turn: Turn, config: Config)
      requires IsFetch(turn.fetched, rows, turn.now, config)
      modifies this
      ensures rows == Dispatched(old(rows), turn, config)
      ensures sent == Tally(turn.fetched, Send, Verdicts(old(rows), turn, config))
      ensures failed == Tally(turn.fetched, Fail, Verdicts(old(rows), turn, config))
      ensures skipped == Tally(turn.fetched, Skip, Verdicts(old(rows), turn, config))
    {
      ghost var before, verdicts := rows, Verdicts(rows, turn, config);
      sent, failed, skipped := 0, 0, 0;
      var singles, mailboxes, order := Sort(before, verdicts, turn, config);
      ghost var done := BlockedOnes(turn.fetched, before, turn);
      SinglesReady(before, verdicts, turn, config);
      SendSingles(singles, done, before, verdicts, turn, config);
      done := done + singles;
      for k := 0 to |order|
        invariant Progress(rows, Counters(), done, before, verdicts, turn.now, config)
        invariant Distinct(done) && Covers(done, order[..k], before, turn, config)
      {
        var members := mailboxes[order[k]];
        MailboxReady(done, order, k, members, before, verdicts, turn, config);
        ghost var taken := SendMailbox(members, done, before, verdicts, turn, config);
        CoversMore(done, taken, order, k, members, before, turn, config);
        done := done + taken;
      }
      AllCovered(done, singles, mailboxes, order, before, turn, config);
      TallySame(done, turn.fetched, Send, verdicts);
      TallySame(done, turn.fetched, Fail, verdicts);
      TallySame(done, turn.fetched, Skip, verdicts);
    }
  }

  /** done holds the fetched deliveries that are blocked, sent singly or collected in one of the boxes. */
  ghost predicate Covers(done: seq<nat>, boxes: seq<Mailbox>, rows: seq<Delivery>, turn: Turn, config: Config) {
    forall i: nat :: i in done <==> IsCovered(i, boxes, rows, turn, config)
  }

  predicate IsCovered(i: nat, boxes: seq<Mailbox>, rows: seq<Delivery>, turn: Turn, config: Config) {
    && i < |rows| && i in turn.fetched
    && (Blocked(rows[i], turn.world) || MailboxOf(rows[i], turn.world, config).None?
        || MailboxOf(rows[i], turn.world, config).value in boxes)
  }

  lemma SinglesReady(rows: seq<Delivery>, verdicts: seq<Verdict>, turn: Turn, config: Config)
    requires ValidTurn(rows, turn) && verdicts == Verdicts(rows, turn, config)
    ensures var done, singles := BlockedOnes(turn.fetched, rows, turn), Members(turn.fetched, None, rows, turn, config);
            && Distinct(done + singles) && Covers(done + singles, [], rows, turn, config)
            && forall k :: 0 <= k < |singles| ==> IsSingle(singles[k], rows, verdicts, turn, config)
  {
    var done, singles := BlockedOnes(turn.fetched, rows, turn), Members(turn.fetched, None, rows, turn, config);
    BlockedOnesWithin(turn.fetched, rows, turn);
    MembersWithin(turn.fetched, None, rows, turn, config);
    DistinctAppend(done, singles);
    forall k | 0 <= k < |singles| ensures IsSingle(singles[k], rows, verdicts, turn, config) {
      assert singles[k] in singles;
    }
  }

  lemma MailboxReady(done: seq<nat>, order: seq<Mailbox>, k: nat, members: seq<nat>, rows: seq<Delivery>,
                     verdicts: seq<Verdict>, turn: Turn, config: Config)
    requires ValidTurn(rows, turn) && verdicts == Verdicts(rows, turn, config)
    requires k < |order| && (forall i, j :: 0 <= i < j < |order| ==> order[i] != order[j])
    requires Distinct(done) && Covers(done, order[..k], rows, turn, config)
    requires members == Members(turn.fetched, Some(order[k]), rows, turn, config)
    ensures InRange(members, rows) && Distinct(done + members) && MailboxVerdicts(members, rows, verdicts, turn, config)
  {
    MembersWithin(turn.fetched, Some(order[k]), rows, turn, config);
    forall i | i in members ensures i !in done {
      assert order[k] !in order[..k];
    }
    DistinctAppend(done, members);
    forall j | 0 <= j < |members|
      ensures members[j] in turn.fetched && GoesTo(members[j], Some(order[k]), rows, turn, config)
    {
      assert members[j] in members;
    }
  }

  lemma CoversMore(done: seq<nat>, taken: seq<nat>, order: seq<Mailbox>, k: nat, members: seq<nat>, rows: seq<Delivery>,
                   turn: Turn, config: Config)
    requires ValidTurn(rows, turn) && k < |order| && Covers(done, order[..k], rows, turn, config)
    requires members == Members(turn.fetched, Some(order[k]), rows, turn, config) && SameIds(taken, members)
    ensures Covers(done + taken, order[..k + 1], rows, turn, config)
  {
    MembersWithin(turn.fetched, Some(order[k]), rows, turn, config);
    assert order[..k + 1] == order[..k] + [order[k]];
    forall i: nat ensures i in done + taken <==> IsCovered(i, order[..k + 1], rows, turn, config) {
      assert i in taken <==> i in members;
      assert i in done <==> IsCovered(i, order[..k], rows, turn, config);
    }
  }

  lemma AllCovered(done: seq<nat>, singles: seq<nat>, mailboxes: map<Mailbox, seq<nat>>, order: seq<Mailbox>,
                   rows: seq<Delivery>, turn: Turn, config: Config)
    requires ValidTurn(rows, turn) && Sorted(singles, mailboxes, order, turn.fetched, rows, turn, config)
    requires Covers(done, order[..|order|], rows, turn, config)
    ensures SameIds(done, turn.fetched)
  {
    assert order[..|order|] == order;
    forall i: nat ensures i in done <==> i in turn.fetched {
      assert i in done <==> IsCovered(i, order, rows, turn, config);
      if i in turn.fetched && i < |rows| && !Blocked(rows[i], turn.world)
         && MailboxOf(rows[i], turn.world, config).Some? {
        var mailbox := MailboxOf(rows[i], turn.world, config);
        MembersWithin(turn.fetched, mailbox, rows, turn, config);
        assert i in Members(turn.fetched, mailbox, rows, turn, config);
        assert mailbox.value in mailboxes;
      }
    }
  }

  lemma {:induction false} TallyAppend(a: seq<nat>, b: seq<nat>, verdict: Verdict, verdicts: seq<Verdict>)
    ensures Tally(a + b, verdict, verdicts) == Tally(a, verdict, verdicts) + Tally(b, verdict, verdicts)
  {
    if b == [] {
      assert a + b == a;
    } else {
      assert (a + b)[..|a + b| - 1] == a + b[..|b| - 1];
      TallyAppend(a, b[..|b| - 1], verdict, verdicts);
    }
  }

  /** The order does not matter for a count. */
  lemma {:induction false} TallySame(a: seq<nat>, b: seq<nat>, verdict: Verdict, verdicts: seq<Verdict>)
    requires Distinct(a) && Distinct(b) && SameIds(a, b)
    ensures Tally(a, verdict, verdicts) == Tally(b, verdict, verdicts)
  {
    if a == [] {
      NoIds(b);
    } else {
      var last := a[|a| - 1];
      assert last in a;
      var k :| 0 <= k < |b| && b[k] == last;
      TallyWithout(b, k, verdict, verdicts);
      Without(a, b, k);
      TallySame(a[..|a| - 1], b[..k] + b[k + 1..], verdict, verdicts);
    }
  }

  /** Every delivery gets exactly one verdict: the counters and those still collecting add up to the fetched. */
  lemma {:induction false} VerdictsPartition(ids: seq<nat>, verdicts: seq<Verdict>)
    requires forall k :: 0 <= k < |ids| ==> ids[k] < |verdicts|
    ensures Tally(ids, Send, verdicts) + Tally(ids, Fail, verdicts) + Tally(ids, Skip, verdicts)
            + Tally(ids, Collect, verdicts) == |ids|
  {
    if ids != [] {
      VerdictsPartition(ids[..|ids| - 1], verdicts);
    }
  }

  lemma NoIds(ids: seq<nat>)
    ensures (forall i: nat :: i !in ids) ==> ids == []
  {
    assert ids != [] ==> ids[0] in ids;
  }

  lemma TallyWithout(b: seq<nat>, k: nat, verdict: Verdict, verdicts: seq<Verdict>)
    requires k < |b|
    ensures Tally(b, verdict, verdicts)
         == Tally(b[..k] + b[k + 1..], verdict, verdicts)
            + if b[k] < |verdicts| && verdicts[b[k]] == verdict then 1 else 0
  {
    assert b == b[..k] + [b[k]] + b[k + 1..];
    TallyAppend(b[..k] + [b[k]], b[k + 1..], verdict, verdicts);
    TallyAppend(b[..k], [b[k]], verdict, verdicts);
    TallyAppend(b[..k], b[k + 1..], verdict, verdicts);
  }

  lemma Without(a: seq<nat>, b: seq<nat>, k: nat)
    requires Distinct(a) && Distinct(b) && SameIds(a, b) && a != [] && k < |b| && b[k] == a[|a| - 1]
    ensures Distinct(b[..k] + b[k + 1..]) && SameIds(a[..|a| - 1], b[..k] + b[k + 1..])
  {
    var front, last, rest := a[..|a| - 1], a[|a| - 1], b[..k] + b[k + 1..];
    assert forall j :: 0 <= j < |rest| ==> rest[j] == b[if j < k then j else j + 1];
    assert forall i: nat :: i in rest <==> i in b && i != last by {
      forall i: nat ensures i in rest <==> i in b && i != last {
        if i in b && i != last {
          var j :| 0 <= j < |b| && b[j] == i;
          assert rest[if j < k then j else j - 1] == i;
        }
      }
    }
    assert a == front + [last];
    assert forall i: nat :: i in front <==> i in a && i != last by {
      forall i: nat ensures i in front <==> i in a && i != last {
        if i in front {
          var j :| 0 <= j < |front| && front[j] == i;
          assert a[j] == i;
        }
      }
    }
  }

  lemma BlockedVerdict(i: nat, rows: seq<Delivery>, verdicts: seq<Verdict>, turn: Turn, config: Config)
    requires ValidTurn(rows, turn) && verdicts == Verdicts(rows, turn, config) && i in turn.fetched && i < |rows|
    ensures Blocked(rows[i], turn.world) ==> verdicts[i] == Skip
  {
  }

  function BlockedOnes(ids: seq<nat>, rows: seq<Delivery>, turn: Turn): seq<nat>
    requires InRange(ids, rows)
  {
    if ids == [] then [] else
      var last := ids[|ids| - 1];
      BlockedOnes(ids[..|ids| - 1], rows, turn) + (if Blocked(rows[last], turn.world) then [last] else [])
  }

  lemma {:induction false} BlockedOnesWithin(ids: seq<nat>, rows: seq<Delivery>, turn: Turn)
    requires InRange(ids, rows)
    ensures forall i: nat ::
      i in BlockedOnes(ids, rows, turn) <==> i in ids && i < |rows| && Blocked(rows[i], turn.world)
    ensures Distinct(ids) ==> Distinct(BlockedOnes(ids, rows, turn))
  {
    if ids != [] {
      var front, last := ids[..|ids| - 1], ids[|ids| - 1];
      assert ids == front + [last];
      BlockedOnesWithin(front, rows, turn);
    }
  }

  lemma NextFetched(fetched: seq<nat>, k: nat, rows: seq<Delivery>, turn: Turn)
    requires Distinct(fetched) && InRange(fetched, rows) && k < |fetched|
    ensures InRange(fetched[..k], rows) && fetched[k] !in BlockedOnes(fetched[..k], rows, turn)
    ensures InRange(fetched[..k] + [fetched[k]], rows)
    ensures BlockedOnes(fetched[..k] + [fetched[k]], rows, turn)
         == BlockedOnes(fetched[..k], rows, turn) + if Blocked(rows[fetched[k]], turn.world) then [fetched[k]] else []
  {
    BlockedOnesWithin(fetched[..k], rows, turn);
    assert (fetched[..k] + [fetched[k]])[..k] == fetched[..k];
  }

  /** The state of the first pass after some of the fetched deliveries. */
  ghost predicate Sorted(singles: seq<nat>, mailboxes: map<Mailbox, seq<nat>>, order: seq<Mailbox>, ids: seq<nat>,
                         rows: seq<Delivery>, turn: Turn, config: Config)
    requires InRange(ids, rows)
  {
    && singles == Members(ids, None, rows, turn, config)
    && (forall m: Mailbox :: m in mailboxes <==> Members(ids, Some(m), rows, turn, config) != [])
    && (forall m: Mailbox :: m in mailboxes ==> mailboxes[m] == Members(ids, Some(m), rows, turn, config))
    && (forall m: Mailbox :: m in mailboxes <==> m in order)
    && (forall j, k :: 0 <= j < k < |order| ==> order[j] != order[k])
  }

  lemma MembersNext(ids: seq<nat>, i: nat, mailbox: Option<Mailbox>, rows: seq<Delivery>, turn: Turn, config: Config)
    requires InRange(ids, rows) && i < |rows|
    ensures InRange(ids + [i], rows)
    ensures Members(ids + [i], mailbox, rows, turn, config)
         == Members(ids, mailbox, rows, turn, config) + if GoesTo(i, mailbox, rows, turn, config) then [i] else []
  {
    assert (ids + [i])[..|ids|] == ids;
  }

  lemma MembersNextAll(ids: seq<nat>, i: nat, rows: seq<Delivery>, turn: Turn, config: Config)
    requires InRange(ids, rows) && i < |rows|
    ensures InRange(ids + [i], rows)
    ensures forall m: Option<Mailbox> ::
      Members(ids + [i], m, rows, turn, config)
      == Members(ids, m, rows, turn, config) + (if GoesTo(i, m, rows, turn, config) then [i] else [])
  {
    forall m: Option<Mailbox>
      ensures InRange(ids + [i], rows)
      ensures Members(ids + [i], m, rows, turn, config)
           == Members(ids, m, rows, turn, config) + if GoesTo(i, m, rows, turn, config) then [i] else []
    {
      MembersNext(ids, i, m, rows, turn, config);
    }
  }

  lemma SortedBlocked(singles: seq<nat>, mailboxes: map<Mailbox, seq<nat>>, order: seq<Mailbox>, ids: seq<nat>, i: nat,
                      rows: seq<Delivery>, turn: Turn, config: Config)
    requires InRange(ids, rows) && i < |rows| && Sorted(singles, mailboxes, order, ids, rows, turn, config)
    requires Blocked(rows[i], turn.world)
    ensures InRange(ids + [i], rows) && Sorted(singles, mailboxes, order, ids + [i], rows, turn, config)
  {
    MembersNextAll(ids, i, rows, turn, config);
  }

  lemma SortedSingle(singles: seq<nat>, mailboxes: map<Mailbox, seq<nat>>, order: seq<Mailbox>, ids: seq<nat>, i: nat,
                     rows: seq<Delivery>, turn: Turn, config: Config)
    requires InRange(ids, rows) && i < |rows| && Sorted(singles, mailboxes, order, ids, rows, turn, config)
    requires GoesTo(i, None, rows, turn, config)
    ensures InRange(ids + [i], rows) && Sorted(singles + [i], mailboxes, order, ids + [i], rows, turn, config)
  {
    MembersNextAll(ids, i, rows, turn, config);
  }

  lemma SortedMailbox(singles: seq<nat>, mailboxes: map<Mailbox, seq<nat>>, order: seq<Mailbox>, ids: seq<nat>, i: nat,
                      target: Mailbox, rows: seq<Delivery>, turn: Turn, config: Config)
    requires InRange(ids, rows) && i < |rows| && Sorted(singles, mailboxes, order, ids, rows, turn, config)
    requires GoesTo(i, Some(target), rows, turn, config)
    ensures InRange(ids + [i], rows)
    ensures target !in mailboxes ==>
      Sorted(singles, mailboxes[target := [i]], order + [target], ids + [i], rows, turn, config)
    ensures target in mailboxes ==>
      Sorted(singles, mailboxes[target := mailboxes[target] + [i]], order, ids + [i], rows, turn, config)
  {
    MembersNextAll(ids, i, rows, turn, config);
  }

  /** The same ids in another order. */
  ghost predicate SameIds(a: seq<nat>, b: seq<nat>) {
    forall i: nat :: i in a <==> i in b
  }

  function ClosedOnes(ids: seq<nat>, rows: seq<Delivery>, turn: Turn, config: Config): seq<nat>
    requires InRange(ids, rows)
  {
    if ids == [] then [] else
      var last := ids[|ids| - 1];
      ClosedOnes(ids[..|ids| - 1], rows, turn, config)
      + (if Closed(rows[last], turn.world, config) then [last] else [])
  }

  lemma {:induction false} ClosedOnesWithin(ids: seq<nat>, rows: seq<Delivery>, turn: Turn, config: Config)
    requires InRange(ids, rows)
    ensures InRange(ClosedOnes(ids, rows, turn, config), rows)
    ensures forall i: nat ::
      i in ClosedOnes(ids, rows, turn, config) <==> i in ids && i < |rows| && Closed(rows[i], turn.world, config)
    ensures Distinct(ids) ==> Distinct(ClosedOnes(ids, rows, turn, config))
  {
    if ids != [] {
      var front, last := ids[..|ids| - 1], ids[|ids| - 1];
      assert ids == front + [last];
      ClosedOnesWithin(front, rows, turn, config);
    }
  }

  lemma NextMember(members: seq<nat>, k: nat, done: seq<nat>, rows: seq<Delivery>, turn: Turn, config: Config)
    requires Distinct(done + members) && InRange(members, rows) && k < |members|
    ensures var i, before, after := members[k], members[..k], members[..k + 1];
            && InRange(before, rows) && InRange(after, rows)
            && i !in done + ClosedOnes(before, rows, turn, config)
            && (if Closed(rows[i], turn.world, config) then
                  && done + ClosedOnes(after, rows, turn, config) == done + ClosedOnes(before, rows, turn, config) + [i]
                  && OpenOnes(after, rows, turn, config) == OpenOnes(before, rows, turn, config)
                else
                  && ClosedOnes(after, rows, turn, config) == ClosedOnes(before, rows, turn, config)
                  && OpenOnes(after, rows, turn, config) == OpenOnes(before, rows, turn, config) + [i])
  {
    NotYet(done, members, k);
    ClosedOnesWithin(members[..k], rows, turn, config);
    assert members[..k + 1][..k] == members[..k];
  }

  lemma NotYet(done: seq<nat>, more: seq<nat>, k: nat)
    requires Distinct(done + more) && k < |more|
    ensures more[k] !in done && more[k] !in done + more[..k] && more[k] !in more[..k]
  {
    var all := done + more;
    assert all[|done| + k] == more[k];
    assert forall j :: 0 <= j < |done| ==> all[j] == done[j];
    assert forall j :: 0 <= j < k ==> all[|done| + j] == more[j];
  }

  lemma NoneTaken(done: seq<nat>, more: seq<nat>)
    requires Distinct(done + more)
    ensures Distinct(more) && forall i :: i in more ==> i !in done
  {
    forall k | 0 <= k < |more| ensures more[k] !in done && more[k] !in more[..k] {
      NotYet(done, more, k);
    }
    forall j, k | 0 <= j < k < |more| ensures more[j] != more[k] {
      assert more[j] == more[..k][j];
    }
  }

  lemma Reordered(done: seq<nat>, members: seq<nat>, rows: seq<Delivery>, turn: Turn, config: Config)
    requires Distinct(done + members) && InRange(members, rows)
    ensures var closed, open := ClosedOnes(members, rows, turn, config), OpenOnes(members, rows, turn, config);
            && InRange(closed, rows) && InRange(open, rows)
            && Distinct(done + closed + open) && SameIds(closed + open, members)
  {
    NoneTaken(done, members);
    ClosedOnesWithin(members, rows, turn, config);
    OpenOnesWithin(members, rows, turn, config);
    var closed, open := ClosedOnes(members, rows, turn, config), OpenOnes(members, rows, turn, config);
    DistinctParts(done, closed, open, members);
  }

  lemma DistinctAppend(a: seq<nat>, b: seq<nat>)
    requires Distinct(a) && Distinct(b) && forall i :: i in b ==> i !in a
    ensures Distinct(a + b)
  {
    var all := a + b;
    forall j, k | 0 <= j < k < |all| ensures all[j] != all[k] {
      if j < |a| <= k {
        assert all[j] in a && all[k] in b;
      }
    }
  }

  lemma DistinctFront(a: seq<nat>, b: seq<nat>)
    requires Distinct(a + b)
    ensures Distinct(a)
  {
    var all := a + b;
    forall j, k | 0 <= j < k < |a| ensures a[j] != a[k] {
      assert all[j] == a[j] && all[k] == a[k];
    }
  }

  lemma DistinctParts(done: seq<nat>, a: seq<nat>, b: seq<nat>, members: seq<nat>)
    requires Distinct(a) && Distinct(b) && Distinct(done + members)
    requires forall i :: i in a ==> i in members && i !in b
    requires forall i :: i in b ==> i in members
    ensures Distinct(done + a + b)
  {
    NoneTaken(done, members);
    DistinctFront(done, members);
    DistinctAppend(done, a);
    DistinctAppend(done + a, b);
  }

  lemma OpenVerdicts(members: seq<nat>, rows: seq<Delivery>, verdicts: seq<Verdict>, turn: Turn, config: Config)
    requires InRange(members, rows) && Distinct(members) && Ripe(members, rows, turn, config)
    requires MailboxVerdicts(members, rows, verdicts, turn, config)
    ensures var open := OpenOnes(members, rows, turn, config);
            forall k :: 0 <= k < |open| ==>
              open[k] < |verdicts| && verdicts[open[k]] == if turn.succeeds(open) then Send else Fail
  {
    OpenOnesWithin(members, rows, turn, config);
    var open := OpenOnes(members, rows, turn, config);
    forall k | 0 <= k < |open|
      ensures open[k] < |verdicts| && verdicts[open[k]] == if turn.succeeds(open) then Send else Fail
    {
      assert open[k] in open;
      var m :| 0 <= m < |members| && members[m] == open[k];
    }
  }

  /** The deliveries in done are as the dispatch leaves them, all others as it found them; the counters (sent,
      failed, skipped) count those in done. */
  ghost predicate Progress(rows: seq<Delivery>, counters: (nat, nat, nat), done: seq<nat>, before: seq<Delivery>,
                           verdicts: seq<Verdict>, now: int, config: Config)
  {
    && |rows| == |before| == |verdicts|
    && (forall i :: i in done ==> i < |before|)
    && (forall i :: 0 <= i < |rows| ==>
          rows[i] == if i in done then Apply(before[i], verdicts[i], now, config) else before[i])
    && counters.0 == Tally(done, Send, verdicts)
    && counters.1 == Tally(done, Fail, verdicts)
    && counters.2 == Tally(done, Skip, verdicts)
  }

  function CountUp(counters: (nat, nat, nat), verdict: Verdict, n: nat): (nat, nat, nat) {
    match verdict
    case Send => (counters.0 + n, counters.1, counters.2)
    case Fail => (counters.0, counters.1 + n, counters.2)
    case Skip => (counters.0, counters.1, counters.2 + n)
    case Collect => counters
  }

  lemma TakeMany(rows0: seq<Delivery>, counters0: (nat, nat, nat), done: seq<nat>, more: seq<nat>, shared: Verdict,
                 rows: seq<Delivery>, counters: (nat, nat, nat), before: seq<Delivery>, verdicts: seq<Verdict>,
                 now: int, config: Config)
    requires Progress(rows0, counters0, done, before, verdicts, now, config)
    requires Distinct(more) && InRange(more, before) && |rows| == |rows0|
    requires forall k :: 0 <= k < |more| ==> more[k] !in done && verdicts[more[k]] == shared
    requires forall j :: 0 <= j < |rows| ==>
      rows[j] == if j in more then Apply(before[j], shared, now, config) else rows0[j]
    requires counters == CountUp(counters0, shared, |more|)
    ensures Progress(rows, counters, done + more, before, verdicts, now, config)
  {
    TallyMore(done, more, Send, shared, verdicts);
    TallyMore(done, more, Fail, shared, verdicts);
    TallyMore(done, more, Skip, shared, verdicts);
  }

  predicate IsSingle(i: nat, rows: seq<Delivery>, verdicts: seq<Verdict>, turn: Turn, config: Config) {
    && i < |rows| && i < |verdicts|
    && verdicts[i] == if Closed(rows[i], turn.world, config) then Skip else if turn.succeeds([i]) then Send else Fail
  }

  /** A member of a ripe mailbox; what becomes of the open ones is decided for all of them. */
  predicate IsMember(i: nat, rows: seq<Delivery>, verdicts: seq<Verdict>, turn: Turn, config: Config) {
    i < |rows| && i < |verdicts| && (Closed(rows[i], turn.world, config) ==> verdicts[i] == Skip)
  }

  predicate MailboxVerdicts(members: seq<nat>, rows: seq<Delivery>, verdicts: seq<Verdict>, turn: Turn, config: Config)
    requires InRange(members, rows)
  {
    if !Ripe(members, rows, turn, config) then
      forall k :: 0 <= k < |members| ==> members[k] < |verdicts| && verdicts[members[k]] == Collect
    else
      forall k :: 0 <= k < |members| ==>
        && IsMember(members[k], rows, verdicts, turn, config)
        && (!Closed(rows[members[k]], turn.world, config) ==>
              verdicts[members[k]] == if turn.succeeds(OpenOnes(members, rows, turn, config)) then Send else Fail)
  }

  lemma {:induction false} TallyMore(done: seq<nat>, more: seq<nat>, verdict: Verdict, shared: Verdict,
                                     verdicts: seq<Verdict>)
    requires forall k :: 0 <= k < |more| ==> more[k] < |verdicts| && verdicts[more[k]] == shared
    ensures Tally(done + more, verdict, verdicts)
         == Tally(done, verdict, verdicts) + if verdict == shared then |more| else 0
  {
    if more == [] {
      assert done + more == done;
    } else {
      var front := more[..|more| - 1];
      assert (done + more)[..|done + more| - 1] == done + front;
      TallyMore(done, front, verdict, shared, verdicts);
    }
  }
}
