/** The events, notifications and rule times the program stores, and the operations that change them. */
module AlertBook {
  import opened Wrappers
  import opened Alerts
  import AlertTargets

  class Book {
    var events: seq<Event>
    var deliveries: seq<Delivery>
    var triggered: map<nat, (int, int)>

    function Data(): World
      reads this
    {
      World(events, deliveries, triggered)
    }

    constructor ()
      ensures Data() == World([], [], map[])
    {
      events, deliveries, triggered := [], [], map[];
    }

    method IsDuplicate(rule: Rule, f: Finding) returns (found: bool)
      ensures found <==> Duplicate(events, rule, f)
    {
      for i := 0 to |events|
        invariant forall j :: 0 <= j < i ==> !(Matches(events[j], rule.id, f) && Active(events[j].status))
      {
        if Matches(events[i], rule.id, f) && Active(events[i].status) {
          return true;
        }
      }
      return false;
    }

    /** Whether some event the finding matches is younger than the pause; never for a pause of zero. */
    method IsInPause(rule: Rule, f: Finding, now: int) returns (found: bool)
      ensures found <==> InPause(events, rule, f, now)
    {
      if rule.pause == 0 {
        return false;
      }
      var since := now - rule.pause;
      for i := 0 to |events|
        invariant forall j :: 0 <= j < i ==> !(Matches(events[j], rule.id, f) && events[j].created > since)
      {
        if Matches(events[i], rule.id, f) && events[i].created > since {
          return true;
        }
      }
      return false;
    }

    method IsBlocked(rule: Rule, f: Finding, now: int) returns (blocked: bool)
      ensures blocked <==> Blocked(events, rule, f, now)
    {
      blocked := IsDuplicate(rule, f);
      if !blocked {
        blocked := IsInPause(rule, f, now);
      }
    }

    /** Appends one event, and behind all other deliveries one for each target. */
    method RaiseEvent(rule: Option<Rule>, f: Finding, now: int, setup: Setup) returns (event: nat)
      modifies this`events, this`deliveries
      ensures event == |old(events)|
      ensures var id := if rule.Some? then Some(rule.value.id) else None;
              events == old(events) + [NewEvent(id, f, now)]
      ensures var wanted := if rule.Some? then Wanted(rule.value) else None;
              deliveries == old(deliveries) + Notifications(event, Targets(setup, wanted, f.domain))
      ensures forall d :: d in deliveries
                     <==> d in old(deliveries)
                          || (d.event == event && AlertTargets.Told(setup, rule, f.domain, d.target))
    {
      event := |events|;
      var wanted: Option<set<nat>>, id: Option<nat> := None, None;
      if rule.Some? {
        wanted, id := Wanted(rule.value), Some(rule.value.id);
      }
      events := events + [NewEvent(id, f, now)];
      var ids := ChannelsFor(setup.channels, wanted);
      QueueChannels(event, ids);
      var emails := if f.domain.Some? then setup.addresses(f.domain.value) else [];
      QueueAddresses(event, emails);
      TargetsInTurn(event, setup, wanted, f.domain, ids, emails);
      AlertTargets.DeliveriesTold(old(deliveries), deliveries, event, setup, rule, f.domain);
    }

    method QueueChannels(event: nat, ids: seq<nat>)
      modifies this`deliveries
      ensures deliveries == old(deliveries) + Notifications(event, Channels(ids))
    {
      ghost var before := deliveries;
      for i := 0 to |ids|
        invariant deliveries == before + Notifications(event, Channels(ids[..i]))
      {
        deliveries := deliveries + [Delivery(event, Channel(ids[i]))];
      }
      assert ids[..|ids|] == ids;
    }

    method QueueAddresses(event: nat, emails: seq<string>)
      modifies this`deliveries
      ensures deliveries == old(deliveries) + Notifications(event, Addresses(emails))
    {
      ghost var before := deliveries;
      for i := 0 to |emails|
        invariant deliveries == before + Notifications(event, Addresses(emails[..i]))
      {
        deliveries := deliveries + [Delivery(event, Address(emails[i]))];
      }
      assert emails[..|emails|] == emails;
    }

    /** The body of the savepoint: findings stored one by one, until storing raises. */
    method RaiseAll(rule: Rule, findings: seq<Finding>, env: Evaluation) returns (ok: bool, raised: seq<nat>)
      modifies this`events, this`deliveries
      ensures var wanted := Raised(old(events), rule, findings, env.now, env.breaks(rule.id));
              && (ok <==> wanted.Some?)
              && (ok ==> events == wanted.value)
      ensures old(events) <= events
      ensures raised == Positions(|old(events)|, |raised|) && |raised| == |events| - |old(events)|
      ensures deliveries == old(deliveries) + Fan(events, |old(events)|, env.setup, Wanted(rule))
    {
      raised := [];
      var left := env.breaks(rule.id);
      ghost var start, told := events, deliveries;
      ghost var wanted := Raised(start, rule, findings, env.now, left);
      assert findings[0..] == findings;
      for i := 0 to |findings|
        invariant Sofar(start, told, raised, rule, env)
        invariant Raised(events, rule, findings[i..], env.now, left) == wanted
      {
        RaisedStep(events, rule, findings, i, env.now, left);
        var blocked := IsBlocked(rule, findings[i], env.now);
        if !blocked {
          if left == Some(0) {
            return false, raised;
          }
          left := if left.Some? then Some(left.value - 1) else None;
          raised := RaiseNext(start, told, raised, rule, findings[i], env);
        }
      }
      assert findings[|findings|..] == [];
      ok := left != Some(0);
    }

    /** What was stored since a start: the events, their positions and their notifications. */
    ghost predicate Sofar(start: seq<Event>, told: seq<Delivery>, raised: seq<nat>, rule: Rule, env: Evaluation)
      reads this
    {
      && start <= events
      && raised == Positions(|start|, |events| - |start|)
      && deliveries == told + Fan(events, |start|, env.setup, Wanted(rule))
    }

    method RaiseNext(ghost start: seq<Event>, ghost told: seq<Delivery>, sofar: seq<nat>, rule: Rule, f: Finding,
                     env: Evaluation)
      returns (raised: seq<nat>)
      requires Sofar(start, told, sofar, rule, env)
      modifies this`events, this`deliveries
      ensures events == old(events) + [NewEvent(Some(rule.id), f, env.now)]
      ensures Sofar(start, told, raised, rule, env)
    {
      FanNext(events, NewEvent(Some(rule.id), f, env.now), |start|, env.setup, Wanted(rule));
      var event := RaiseEvent(Some(rule), f, env.now, env.setup);
      raised := sofar + [event];
    }

    /** One rule that breaks leaves what was stored before it as it was. */
    method EvaluateOne(rule: Rule, env: Evaluation) returns (raised: seq<nat>)
      modifies this
      ensures Data() == EvaluateRule(old(Data()), rule, env)
      ensures old(events) <= events
      ensures raised == Positions(|old(events)|, |raised|) && |raised| == |events| - |old(events)|
    {
      raised := [];
      if !rule.active || !rule.known {
        return;
      }
      var savedEvents, savedDeliveries := events, deliveries;
      var findings := Findings(rule, env);
      if findings.None? {
        return;
      }
      var ok, added := RaiseAll(rule, findings.value, env);
      if !ok {
        events, deliveries := savedEvents, savedDeliveries;
        return;
      }
      if added != [] {
        triggered := triggered[rule.id := (env.now, env.now + rule.pause)];
      } else {
        assert deliveries == savedDeliveries;
      }
      raised := added;
    }

    /** Check all rules; the result lists exactly the events stored, in the order they were stored. */
    method EvaluateRules(rules: seq<Rule>, env: Evaluation) returns (fired: seq<nat>)
      requires DistinctRules(rules)
      modifies this
      ensures Data() == After(old(Data()), Check(rules, env))
      ensures old(events) <= events
      ensures fired == Positions(|old(events)|, |fired|) && |fired| == |events| - |old(events)|
    {
      fired := [];
      ghost var start, now := Data(), Data();
      for i := 0 to |rules|
        invariant Data() == now && now == Evaluate(start, rules[..i], env)
        invariant |start.events| <= |now.events| && start.events == now.events[..|start.events|]
        invariant fired == Positions(|start.events|, |now.events| - |start.events|)
      {
        EvaluateNext(start, rules, i, env);
        var raised := EvaluateOne(rules[i], env);
        MorePositions(start.events, now.events, events, fired, raised);
        fired, now := fired + raised, Data();
      }
      assert rules[..|rules|] == rules;
    }

    method CreateSystemAlert(f: Finding, now: int, setup: Setup) returns (event: nat)
      modifies this
      ensures Data() == After(old(Data()), System(f, now, setup)) && event == |old(events)|
    {
      event := RaiseEvent(None, f, now, setup);
    }

    method AcknowledgeEvent(i: nat)
      requires i < |events|
      modifies this
      ensures Data() == After(old(Data()), Acknowledge(i))
    {
      events := events[i := events[i].(status := Acknowledged)];
    }

    method ResolveEvent(i: nat)
      requires i < |events|
      modifies this
      ensures Data() == After(old(Data()), Resolve(i))
    {
      events := events[i := events[i].(status := Resolved)];
    }

    method DeleteRule(id: nat)
      modifies this
      ensures Data() == After(old(Data()), Step.DeleteRule(id))
    {
      ghost var before := events;
      for i := 0 to |events|
        invariant |events| == |before| && deliveries == old(deliveries) && triggered == old(triggered)
        invariant forall j :: 0 <= j < |events| ==> events[j] == if j < i then Released(before, id)[j] else before[j]
      {
        if events[i].rule == Some(id) {
          events := events[i := events[i].(rule := None)];
        }
      }
      triggered := triggered - {id};
      assert events == Released(before, id);
    }

    /** Every member that may move moves to the wanted status; the result is how many did. */
    method BulkEvents(acknowledge: bool, members: set<nat>) returns (changed: nat)
      modifies this
      ensures Data() == After(old(Data()), if acknowledge then AcknowledgeAll(members) else ResolveAll(members))
      ensures changed == |Moved(old(events), events, |events|)|
    {
      ghost var before := events;
      var wanted := if acknowledge then Acknowledged else Resolved;
      changed := 0;
      for i := 0 to |events|
        invariant |events| == |before| && deliveries == old(deliveries) && triggered == old(triggered)
        invariant forall j :: i <= j < |events| ==> events[j] == before[j]
        invariant forall j :: 0 <= j < i ==> events[j] == BulkOn(before[j], acknowledge, j in members)
        invariant changed == |Moved(before, events, i)|
      {
        ghost var sofar := events;
        if i in members && !(events[i].status == wanted || (acknowledge && events[i].status != Open)) {
          events := events[i := events[i].(status := wanted)];
          changed := changed + 1;
        }
        MovedNext(before, sofar, events, i);
      }
      BulkIsStatus(before, events, acknowledge, members);
    }
  }

  /** n positions from a first one on. */
  function Positions(first: nat, n: nat): (positions: seq<nat>)
    ensures |positions| == n && forall k :: 0 <= k < n ==> positions[k] == first + k
  {
    seq(n, k requires 0 <= k < n => first + k)
  }

  lemma TargetsInTurn(event: nat, setup: Setup, wanted: Option<set<nat>>, domain: Option<nat>, ids: seq<nat>,
                      emails: seq<string>)
    requires ids == ChannelsFor(setup.channels, wanted)
    requires emails == if domain.Some? then setup.addresses(domain.value) else []
    ensures Notifications(event, Targets(setup, wanted, domain))
         == Notifications(event, Channels(ids))
            + Notifications(event, Addresses(emails))
  {
  }

  lemma MorePositions(start: seq<Event>, now: seq<Event>, next: seq<Event>, fired: seq<nat>, raised: seq<nat>)
    requires start <= now <= next
    requires fired == Positions(|start|, |now| - |start|) && raised == Positions(|now|, |next| - |now|)
    ensures start <= next && fired + raised == Positions(|start|, |next| - |start|)
  {
  }

  lemma EvaluateNext(w: World, rules: seq<Rule>, i: nat, env: Evaluation)
    requires i < |rules|
    ensures Evaluate(w, rules[..i + 1], env) == EvaluateRule(Evaluate(w, rules[..i], env), rules[i], env)
  {
    assert rules[..i + 1][..i] == rules[..i];
  }

  lemma RaisedStep(events: seq<Event>, rule: Rule, findings: seq<Finding>, i: nat, now: int, left: Option<nat>)
    requires i < |findings|
    ensures Raised(events, rule, findings[i..], now, left)
         == if Blocked(events, rule, findings[i], now) then Raised(events, rule, findings[i + 1..], now, left)
            else if left == Some(0) then None
            else Raised(events + [NewEvent(Some(rule.id), findings[i], now)], rule, findings[i + 1..], now,
                        if left.Some? then Some(left.value - 1) else None)
  {
    assert findings[i..][1..] == findings[i + 1..];
  }

  lemma FanNext(events: seq<Event>, e: Event, from: nat, setup: Setup, wanted: Option<set<nat>>)
    requires from <= |events|
    ensures Fan(events + [e], from, setup, wanted)
         == Fan(events, from, setup, wanted) + Notifications(|events|, Targets(setup, wanted, e.domain))
  {
    assert (events + [e])[..|events|] == events;
  }

  lemma BulkIsStatus(before: seq<Event>, after: seq<Event>, acknowledge: bool, members: set<nat>)
    requires |before| == |after|
    requires forall j :: 0 <= j < |after| ==> after[j] == BulkOn(before[j], acknowledge, j in members)
    ensures after == if acknowledge then WithStatus(before, members, {Open}, Acknowledged)
                     else WithStatus(before, members, {Open, Acknowledged, Ignored}, Resolved)
  {
    var seen := WithStatus(before, members, {Open}, Acknowledged);
    var done := WithStatus(before, members, {Open, Acknowledged, Ignored}, Resolved);
    forall j | 0 <= j < |after| ensures after[j] == if acknowledge then seen[j] else done[j] {
      assert before[j].status in {Open, Acknowledged, Ignored} <==> before[j].status != Resolved;
    }
  }

  function BulkOn(e: Event, acknowledge: bool, member: bool): Event {
    if !member || (acknowledge && e.status != Open) then e
    else e.(status := if acknowledge then Acknowledged else Resolved)
  }

  /** Which events below n differ. */
  ghost function Moved(before: seq<Event>, now: seq<Event>, n: nat): set<nat>
    requires n <= |before| == |now|
  {
    set i: nat | i < n && before[i] != now[i]
  }

  lemma MovedNext(before: seq<Event>, sofar: seq<Event>, now: seq<Event>, n: nat)
    requires n < |before| == |sofar| == |now|
    requires now == sofar[n := now[n]]
    ensures |Moved(before, now, n + 1)| == |Moved(before, sofar, n)| + if before[n] != now[n] then 1 else 0
  {
    assert Moved(before, now, n + 1) == Moved(before, sofar, n) + if before[n] != now[n] then {n} else {};
  }
}
