/** What a dispatch does with each delivery, in terms of its channel or address, its alert and its mailbox. */
module NotificationVerdicts {
  import opened Wrappers
  import opened Notification
  import opened NotificationRuns

  /** The channel is there and switched on, or the address is given and still wants the alerts. */
  predicate Reachable(d: Delivery, world: World) {
    match d.channel
    case Some(id) => world.channel(id).Some? && world.channel(id).value.isActive
    case None => d.recipient != "" && world.wants(d.event, d.recipient)
  }

  /** With a window set, mails to addresses and over mail channels are collected. */
  predicate Collected(d: Delivery, world: World, config: Config) {
    && config.bundleSeconds > 0
    && match d.channel
       case Some(id) => world.channel(id).Some? && world.channel(id).value.isMail
       case None => true
  }

  predicate SameBox(a: Delivery, b: Delivery) {
    a.channel == b.channel && (a.channel.None? ==> a.recipient == b.recipient)
  }

  /** Some reachable delivery fetched for the same mailbox has waited for the window. */
  predicate WindowOver(d: Delivery, rows: seq<Delivery>, turn: Turn, config: Config) {
    exists k :: 0 <= k < |turn.fetched| && Waited(d, turn.fetched[k], rows, turn, config)
  }

  predicate Waited(d: Delivery, j: nat, rows: seq<Delivery>, turn: Turn, config: Config) {
    && j < |rows| && SameBox(rows[j], d) && Reachable(rows[j], turn.world)
    && turn.now - rows[j].createdAt >= config.bundleSeconds
  }

  predicate AlertClosed(d: Delivery, turn: Turn, config: Config) {
    turn.world.alert(d.event) in config.skipStatuses
  }

  lemma ReachableExactly(d: Delivery, world: World)
    ensures Reachable(d, world) <==> !Blocked(d, world)
  {
  }

  lemma BoxExactly(a: Delivery, b: Delivery, world: World, config: Config)
    requires Collected(b, world, config)
    ensures MailboxOf(b, world, config).Some?
    ensures SameBox(a, b) <==> MailboxOf(a, world, config) == MailboxOf(b, world, config)
  {
  }

  lemma RipeExactly(i: nat, rows: seq<Delivery>, turn: Turn, config: Config)
    requires ValidTurn(rows, turn) && i < |rows| && Collected(rows[i], turn.world, config)
    ensures IsRipe(MailboxOf(rows[i], turn.world, config), rows, turn, config)
        <==> WindowOver(rows[i], rows, turn, config)
  {
    var mailbox := MailboxOf(rows[i], turn.world, config);
    MembersWithin(turn.fetched, mailbox, rows, turn, config);
    var members := Members(turn.fetched, mailbox, rows, turn, config);
    if Ripe(members, rows, turn, config) {
      var k :| 0 <= k < |members| && turn.now - rows[members[k]].createdAt >= config.bundleSeconds;
      assert members[k] in members;
      var m :| 0 <= m < |turn.fetched| && turn.fetched[m] == members[k];
      BoxExactly(rows[members[k]], rows[i], turn.world, config);
      assert Waited(rows[i], turn.fetched[m], rows, turn, config);
    }
    if WindowOver(rows[i], rows, turn, config) {
      var m :| 0 <= m < |turn.fetched| && Waited(rows[i], turn.fetched[m], rows, turn, config);
      BoxExactly(rows[turn.fetched[m]], rows[i], turn.world, config);
      assert turn.fetched[m] in turn.fetched && turn.fetched[m] in members;
      var k :| 0 <= k < |members| && members[k] == turn.fetched[m];
    }
  }

  /** Whether the delivery waits for others of its mailbox in this dispatch. */
  predicate StillCollecting(d: Delivery, rows: seq<Delivery>, turn: Turn, config: Config) {
    Collected(d, turn.world, config) && !WindowOver(d, rows, turn, config)
  }

  /** Tried at this time: sent, or failed with one more retry and the next one after the pause, doubled each time. */
  predicate Tried(before: Delivery, after: Delivery, now: int, config: Config) {
    && after.attempts == before.attempts + [now]
    && (|| (after == before.(status := Sent, sentAt := Some(now), nextAttemptAt := None, attempts := after.attempts))
        || after == before.(status := Failed, retryCount := before.retryCount + 1, attempts := after.attempts,
                            nextAttemptAt := Some(now + config.retryDelay * Pow2(before.retryCount))))
  }

  /** What becomes of each delivery: one that is not fetched stays; one whose channel is gone or off, or whose address
      is empty or no longer wants the alerts, is skipped; one that still collects stays; of the rest those with an
      alert in a status to skip are skipped, and all others are tried. */
  lemma VerdictExactly(rows: seq<Delivery>, turn: Turn, config: Config, i: nat)
    requires ValidTurn(rows, turn) && i < |rows|
    ensures var before, after := rows[i], Dispatched(rows, turn, config)[i];
            if i !in turn.fetched then after == before
            else if !Reachable(before, turn.world) then after == before.(status := Skipped)
            else if StillCollecting(before, rows, turn, config) then after == before
            else if AlertClosed(before, turn, config) then after == before.(status := Skipped)
            else Tried(before, after, turn.now, config)
  {
    ReachableExactly(rows[i], turn.world);
    if i in turn.fetched && Reachable(rows[i], turn.world) && Collected(rows[i], turn.world, config) {
      RipeExactly(i, rows, turn, config);
    }
  }

  /** A fetched delivery is skipped exactly for want of a receiver, or for a closed alert once it stops collecting. */
  lemma SkippedExactly(rows: seq<Delivery>, turn: Turn, config: Config, i: nat)
    requires IsFetch(turn.fetched, rows, turn.now, config) && i < |rows| && i in turn.fetched
    ensures Dispatched(rows, turn, config)[i].status == Skipped
        <==> !Reachable(rows[i], turn.world)
             || (!StillCollecting(rows[i], rows, turn, config) && AlertClosed(rows[i], turn, config))
  {
    VerdictExactly(rows, turn, config, i);
    var k :| 0 <= k < |turn.fetched| && turn.fetched[k] == i;
    assert Due(rows[turn.fetched[k]], turn.now, config);
  }

  /** A delivery is tried exactly when it was fetched, which takes that it is due, its receiver is there, it does not
      collect any more, and its alert has no status to skip. */
  lemma AttemptExactly(rows: seq<Delivery>, turn: Turn, config: Config, i: nat)
    requires IsFetch(turn.fetched, rows, turn.now, config) && i < |rows|
    ensures Dispatched(rows, turn, config)[i].attempts != rows[i].attempts
        <==> i in turn.fetched && Reachable(rows[i], turn.world)
             && !StillCollecting(rows[i], rows, turn, config) && !AlertClosed(rows[i], turn, config)
    ensures i in turn.fetched ==> Due(rows[i], turn.now, config)
  {
    VerdictExactly(rows, turn, config, i);
    if i in turn.fetched {
      var k :| 0 <= k < |turn.fetched| && turn.fetched[k] == i;
    }
  }

  /** A mail for a mailbox holds the fetched deliveries for it whose receiver is there and whose alert is open, and is
      sent for all of them or for none. */
  lemma BundleExactly(rows: seq<Delivery>, turn: Turn, config: Config, i: nat, j: nat)
    requires ValidTurn(rows, turn) && i < |rows| && Collected(rows[i], turn.world, config)
    ensures j in Bundle(MailboxOf(rows[i], turn.world, config), rows, turn, config)
        <==> j in turn.fetched && j < |rows| && SameBox(rows[j], rows[i])
             && Reachable(rows[j], turn.world) && !AlertClosed(rows[j], turn, config)
    ensures Dispatched(rows, turn, config)[i].attempts != rows[i].attempts ==>
              Dispatched(rows, turn, config)[i].status
              == if turn.succeeds(Bundle(MailboxOf(rows[i], turn.world, config), rows, turn, config)) then Sent
                 else Failed
  {
    var mailbox := MailboxOf(rows[i], turn.world, config);
    MembersWithin(turn.fetched, mailbox, rows, turn, config);
    OpenOnesWithin(Members(turn.fetched, mailbox, rows, turn, config), rows, turn, config);
    if j < |rows| {
      BoxExactly(rows[j], rows[i], turn.world, config);
      ReachableExactly(rows[j], turn.world);
    }
  }

  /** A fetched delivery over an active channel that is none of mail, with its alert open, is always tried, on its own,
      and sent exactly when that succeeds. */
  lemma SingleTried(rows: seq<Delivery>, turn: Turn, config: Config, i: nat)
    requires IsFetch(turn.fetched, rows, turn.now, config) && i < |rows| && i in turn.fetched
    requires rows[i].channel.Some? && turn.world.channel(rows[i].channel.value) == Some(Channel(true, false))
    requires turn.world.alert(rows[i].event) !in config.skipStatuses
    ensures var after := Dispatched(rows, turn, config)[i];
            && after.attempts == rows[i].attempts + [turn.now]
            && after.status == if turn.succeeds([i]) then Sent else Failed
  {
    VerdictExactly(rows, turn, config, i);
  }

  /** When a delivery needs an attempt: at once while it is new; after a failure as soon as the pause since the last
      attempt is over, and not before, as long as retries are left; never again when it is sent, skipped or deleted. */
  lemma DueExactly(d: Delivery, now: int, config: Config)
    requires WellKept(d, config)
    ensures Due(d, now, config)
        <==> d.present
             && match d.status
                case Pending => true
                case Failed =>
                  d.retryCount <= config.retryMax && d.attempts != []
                  && now >= d.attempts[|d.attempts| - 1] + config.retryDelay * Pow2(|d.attempts| - 1)
                case Sent => false
                case Skipped => false
  {
  }
}
