/** Dispatch of queued alert notifications: skipping, bundling per mailbox, sending and retrying. */
module Notification {
  import opened Wrappers

  datatype Status = Pending | Sent | Failed | Skipped
  datatype AlertStatus = Open | Acknowledged | Resolved | Ignored

  /** attempts is the history of the times at which the delivery was tried; the program keeps no such record.
      present: the row has not been deleted with its channel. */
  datatype Delivery = Delivery(
    event: nat, channel: Option<nat>, recipient: string, createdAt: int, status: Status, retryCount: nat,
    nextAttemptAt: Option<int>, sentAt: Option<int>, attempts: seq<int>, present: bool)

  datatype Config = Config(retryMax: nat, retryDelay: nat, batchSize: nat, bundleSeconds: nat,
                           skipStatuses: set<AlertStatus>)

  datatype Channel = Channel(isActive: bool, isMail: bool)

  /** What the rest of the database says during one dispatch. */
  datatype World = World(alert: nat -> AlertStatus, channel: nat -> Option<Channel>, wants: (nat, string) -> bool)

  datatype Mailbox = ToAddress(address: string) | ToChannel(id: nat)

  function RetryDelay(retryCount: nat, config: Config): nat {
    config.retryDelay * Pow2(if retryCount > 0 then retryCount - 1 else 0)
  }

  // Which deliveries a dispatch takes -----------------------------------------------------------------

  predicate Due(d: Delivery, now: int, config: Config) {
    && d.present
    && (|| d.status == Pending
        || (d.status == Failed && d.retryCount <= config.retryMax
            && (d.nextAttemptAt.None? || d.nextAttemptAt.value <= now)))
  }

  predicate InRange(ids: seq<nat>, rows: seq<Delivery>) {
    forall k :: 0 <= k < |ids| ==> ids[k] < |rows|
  }

  /** The query: due deliveries, oldest first, as many as the batch allows. */
  predicate IsFetch(fetched: seq<nat>, rows: seq<Delivery>, now: int, config: Config) {
    && Distinct(fetched) && InRange(fetched, rows) && |fetched| <= config.batchSize
    && (forall k :: 0 <= k < |fetched| ==> Due(rows[fetched[k]], now, config))
    && (forall j, k :: 0 <= j < k < |fetched| ==> rows[fetched[j]].createdAt <= rows[fetched[k]].createdAt)
    && (forall i, k :: 0 <= i < |rows| && Due(rows[i], now, config) && i !in fetched && 0 <= k < |fetched|
          ==> rows[fetched[k]].createdAt <= rows[i].createdAt)
    && (forall i :: 0 <= i < |rows| && Due(rows[i], now, config) && i !in fetched ==> |fetched| == config.batchSize)
  }

  // What becomes of each of them ------------------------------------------------------------------------

  /** The recipient no longer wants the alerts, or the channel is gone or switched off. */
  predicate Blocked(d: Delivery, world: World) {
    match d.channel
    case None => d.recipient == "" || !world.wants(d.event, d.recipient)
    case Some(id) => world.channel(id).None? || !world.channel(id).value.isActive
  }

  /** Where a delivery waits for others; None for one that never waits. */
  function MailboxOf(d: Delivery, world: World, config: Config): Option<Mailbox> {
    if config.bundleSeconds == 0 then None
    else
      match d.channel
      case None => Some(ToAddress(d.recipient))
      case Some(id) => if world.channel(id).Some? && world.channel(id).value.isMail then Some(ToChannel(id)) else None
  }

  predicate Closed(d: Delivery, world: World, config: Config) {
    world.alert(d.event) in config.skipStatuses
  }

  /** One dispatch: its time, the deliveries fetched, the database around it, and whether a send of the given
      deliveries succeeds. */
  datatype Turn = Turn(now: int, fetched: seq<nat>, world: World, succeeds: seq<nat> -> bool)

  predicate GoesTo(i: nat, mailbox: Option<Mailbox>, rows: seq<Delivery>, turn: Turn, config: Config)
    requires i < |rows|
  {
    !Blocked(rows[i], turn.world) && MailboxOf(rows[i], turn.world, config) == mailbox
  }

  /** The fetched deliveries for a mailbox, or those sent singly, in the order fetched. */
  function Members(ids: seq<nat>, mailbox: Option<Mailbox>, rows: seq<Delivery>, turn: Turn, config: Config): seq<nat>
    requires InRange(ids, rows)
  {
    if ids == [] then [] else
      var last := ids[|ids| - 1];
      Members(ids[..|ids| - 1], mailbox, rows, turn, config)
      + (if GoesTo(last, mailbox, rows, turn, config) then [last] else [])
  }

  function OpenOnes(ids: seq<nat>, rows: seq<Delivery>, turn: Turn, config: Config): seq<nat>
    requires InRange(ids, rows)
  {
    if ids == [] then [] else
      var last := ids[|ids| - 1];
      OpenOnes(ids[..|ids| - 1], rows, turn, config)
      + (if Closed(rows[last], turn.world, config) then [] else [last])
  }

  /** Some member has waited for a whole bundling window. */
  predicate Ripe(ids: seq<nat>, rows: seq<Delivery>, turn: Turn, config: Config)
    requires InRange(ids, rows)
  {
    exists k :: 0 <= k < |ids| && turn.now - rows[ids[k]].createdAt >= config.bundleSeconds
  }

  datatype Verdict = Collect | Skip | Send | Fail

  predicate ValidTurn(rows: seq<Delivery>, turn: Turn) {
    Distinct(turn.fetched) && InRange(turn.fetched, rows)
  }

  function Judge(i: nat, rows: seq<Delivery>, turn: Turn, config: Config): Verdict
    requires ValidTurn(rows, turn) && i < |rows|
  {
    if i !in turn.fetched then Collect
    else if Blocked(rows[i], turn.world) then Skip
    else
      var mailbox := MailboxOf(rows[i], turn.world, config);
      if mailbox.Some? && !IsRipe(mailbox, rows, turn, config) then Collect
      else if Closed(rows[i], turn.world, config) then Skip
      else if turn.succeeds(if mailbox.Some? then Bundle(mailbox, rows, turn, config) else [i]) then Send
      else Fail
  }

  predicate IsRipe(mailbox: Option<Mailbox>, rows: seq<Delivery>, turn: Turn, config: Config)
    requires ValidTurn(rows, turn)
  {
    MembersWithin(turn.fetched, mailbox, rows, turn, config);
    Ripe(Members(turn.fetched, mailbox, rows, turn, config), rows, turn, config)
  }

  /** The deliveries that go out in one mail. */
  function Bundle(mailbox: Option<Mailbox>, rows: seq<Delivery>, turn: Turn, config: Config): seq<nat>
    requires ValidTurn(rows, turn)
  {
    MembersWithin(turn.fetched, mailbox, rows, turn, config);
    OpenOnes(Members(turn.fetched, mailbox, rows, turn, config), rows, turn, config)
  }

  /** The verdicts of the dispatch on all deliveries. */
  function Verdicts(rows: seq<Delivery>, turn: Turn, config: Config): (verdicts: seq<Verdict>)
    requires ValidTurn(rows, turn)
    ensures |verdicts| == |rows|
    ensures forall i :: 0 <= i < |rows| ==> verdicts[i] == Judge(i, rows, turn, config)
  {
    seq(|rows|, i requires 0 <= i < |rows| => Judge(i, rows, turn, config))
  }

  function Recorded(d: Delivery, ok: bool, now: int, config: Config): Delivery {
    if ok then d.(status := Sent, sentAt := Some(now), nextAttemptAt := None, attempts := d.attempts + [now])
    else d.(status := Failed, retryCount := d.retryCount + 1, attempts := d.attempts + [now],
            nextAttemptAt := Some(now + RetryDelay(d.retryCount + 1, config)))
  }

  function Apply(d: Delivery, verdict: Verdict, now: int, config: Config): Delivery {
    match verdict
    case Collect => d
    case Skip => d.(status := Skipped)
    case Send => Recorded(d, true, now, config)
    case Fail => Recorded(d, false, now, config)
  }

  /** The whole dispatch, row by row. */
  function Dispatched(rows: seq<Delivery>, turn: Turn, config: Config): (after: seq<Delivery>)
    requires ValidTurn(rows, turn)
    ensures |after| == |rows|
    ensures forall i :: 0 <= i < |rows| ==> after[i] == Apply(rows[i], Judge(i, rows, turn, config), turn.now, config)
  {
    seq(|rows|, i requires 0 <= i < |rows| => Apply(rows[i], Judge(i, rows, turn, config), turn.now, config))
  }

  lemma {:induction false} MembersWithin(ids: seq<nat>, mailbox: Option<Mailbox>, rows: seq<Delivery>, turn: Turn,
                                         config: Config)
    requires InRange(ids, rows)
    ensures InRange(Members(ids, mailbox, rows, turn, config), rows)
    ensures forall i: nat ::
      i in Members(ids, mailbox, rows, turn, config)
      <==> i in ids && i < |rows| && GoesTo(i, mailbox, rows, turn, config)
    ensures Distinct(ids) ==> Distinct(Members(ids, mailbox, rows, turn, config))
  {
    if ids != [] {
      var front, last := ids[..|ids| - 1], ids[|ids| - 1];
      assert ids == front + [last];
      MembersWithin(front, mailbox, rows, turn, config);
    }
  }

  lemma {:induction false} OpenOnesWithin(ids: seq<nat>, rows: seq<Delivery>, turn: Turn, config: Config)
    requires InRange(ids, rows)
    ensures InRange(OpenOnes(ids, rows, turn, config), rows)
    ensures forall i: nat ::
      i in OpenOnes(ids, rows, turn, config) <==> i in ids && i < |rows| && !Closed(rows[i], turn.world, config)
    ensures Distinct(ids) ==> Distinct(OpenOnes(ids, rows, turn, config))
  {
    if ids != [] {
      var front, last := ids[..|ids| - 1], ids[|ids| - 1];
      assert ids == front + [last];
      OpenOnesWithin(front, rows, turn, config);
    }
  }
}
