/** Who is told about an event. */
module AlertTargets {
  import opened Wrappers
  import opened Alerts

  lemma {:induction false} ChannelsExact(active: seq<nat>, wanted: Option<set<nat>>, id: nat)
    ensures id in ChannelsFor(active, wanted) <==> id in active && (wanted.Some? ==> id in wanted.value)
    ensures Distinct(active) ==> Distinct(ChannelsFor(active, wanted))
  {
    if active != [] {
      ChannelsExact(active[1..], wanted, id);
      var rest := ChannelsFor(active[1..], wanted);
      if Distinct(active) {
        assert Distinct(active[1..]) by {
          forall i, j | 0 <= i < j < |active[1..]| ensures active[1..][i] != active[1..][j] {
            assert active[i + 1] != active[j + 1];
          }
        }
        forall k | 0 <= k < |rest| ensures rest[k] != active[0] {
          ChannelsWithin(active[1..], wanted, rest[k]);
          var m :| 0 <= m < |active[1..]| && active[1..][m] == rest[k];
          assert active[m + 1] != active[0];
        }
      }
    }
  }

  lemma {:induction false} ChannelsWithin(active: seq<nat>, wanted: Option<set<nat>>, id: nat)
    requires id in ChannelsFor(active, wanted)
    ensures id in active
  {
    if active[0] != id {
      ChannelsWithin(active[1..], wanted, id);
    }
  }

  predicate Wants(setup: Setup, wanted: Option<set<nat>>, domain: Option<nat>, target: Target) {
    match target
    case Channel(id) => id in setup.channels && (wanted.Some? ==> id in wanted.value)
    case Address(email) => domain.Some? && email in setup.addresses(domain.value)
  }

  /** Each target that wants an event is told, once, and no other. */
  lemma TargetsExact(setup: Setup, wanted: Option<set<nat>>, domain: Option<nat>, target: Target)
    ensures target in Targets(setup, wanted, domain) <==> Wants(setup, wanted, domain, target)
    ensures Distinct(setup.channels) && (domain.Some? ==> Distinct(setup.addresses(domain.value)))
        ==> Distinct(Targets(setup, wanted, domain))
  {
    var ids := ChannelsFor(setup.channels, wanted);
    var emails := if domain.Some? then setup.addresses(domain.value) else [];
    var all := Targets(setup, wanted, domain);
    assert all == Channels(ids) + Addresses(emails);
    assert |all| == |ids| + |emails|;
    assert forall i :: 0 <= i < |all| ==> all[i] == if i < |ids| then Channel(ids[i]) else Address(emails[i - |ids|]);
    match target
    case Channel(id) =>
      ChannelsExact(setup.channels, wanted, id);
      if id in ids {
        var k :| 0 <= k < |ids| && ids[k] == id;
        assert all[k] == target;
      }
    case Address(email) =>
      ChannelsExact(setup.channels, wanted, 0);
      if email in emails {
        var k :| 0 <= k < |emails| && emails[k] == email;
        assert all[|ids| + k] == target;
      }
  }

  lemma {:induction false} FanExact(events: seq<Event>, from: nat, setup: Setup, wanted: Option<set<nat>>, d: Delivery)
    requires from <= |events|
    ensures d in Fan(events, from, setup, wanted)
        <==> from <= d.event < |events| && Wants(setup, wanted, events[d.event].domain, d.target)
    decreases |events|
  {
    if from < |events| {
      var last := |events| - 1;
      FanExact(events[..last], from, setup, wanted, d);
      var targets := Targets(setup, wanted, events[last].domain);
      if d.event == last {
        TargetsExact(setup, wanted, events[last].domain, d.target);
        if d.target in targets {
          var k :| 0 <= k < |targets| && targets[k] == d.target;
          assert Notifications(last, targets)[k] == d;
        }
      }
    }
  }

  /** A rule queues, besides what there was, exactly one kind of notifications: of its new events, to the active
      channels its own list names, none when the list cannot be read, and to the further recipients of the domain. */
  lemma RuleNotifies(w: World, rule: Rule, env: Evaluation, d: Delivery)
    ensures var next := EvaluateRule(w, rule, env);
            && w.events <= next.events && w.deliveries <= next.deliveries
            && (d in next.deliveries <==> d in w.deliveries || NotifiesNew(w, next, rule, env.setup, d))
  {
    OutcomeAppends(w.events, rule, env);
    var events := Outcome(w.events, rule, env);
    if events.Some? {
      FanExact(events.value, |w.events|, env.setup, Wanted(rule), d);
    }
  }

  predicate NotifiesNew(w: World, next: World, rule: Rule, setup: Setup, d: Delivery) {
    |w.events| <= d.event < |next.events| && Told(setup, Some(rule), next.events[d.event].domain, d.target)
  }

  /** An active channel is told when the list of the rule names it, or when there is no rule; an address when it gets
      the alerts of the domain. */
  predicate Told(setup: Setup, rule: Option<Rule>, domain: Option<nat>, target: Target) {
    match target
    case Channel(id) =>
      && id in setup.channels
      && (rule.Some? ==> rule.value.channels.Some? && id in rule.value.channels.value)
    case Address(email) => domain.Some? && email in setup.addresses(domain.value)
  }

  lemma NotificationsExactly(event: nat, targets: seq<Target>, d: Delivery)
    ensures d in Notifications(event, targets) <==> d.event == event && d.target in targets
  {
    if d.event == event && d.target in targets {
      var k :| 0 <= k < |targets| && targets[k] == d.target;
      assert Notifications(event, targets)[k] == d;
    }
  }

  /** The deliveries of one event are those for whom it is meant. */
  lemma ToldExactly(event: nat, setup: Setup, rule: Option<Rule>, domain: Option<nat>, d: Delivery)
    ensures var wanted := if rule.Some? then Wanted(rule.value) else None;
            d in Notifications(event, Targets(setup, wanted, domain))
            <==> d.event == event && Told(setup, rule, domain, d.target)
  {
    var wanted := if rule.Some? then Wanted(rule.value) else None;
    TargetsExact(setup, wanted, domain, d.target);
    NotificationsExactly(event, Targets(setup, wanted, domain), d);
  }

  lemma DeliveriesTold(before: seq<Delivery>, after: seq<Delivery>, event: nat, setup: Setup, rule: Option<Rule>,
                       domain: Option<nat>)
    requires var wanted := if rule.Some? then Wanted(rule.value) else None;
             after == before + Notifications(event, Targets(setup, wanted, domain))
    ensures forall d :: d in after <==> d in before || (d.event == event && Told(setup, rule, domain, d.target))
  {
    forall d ensures d in after <==> d in before || (d.event == event && Told(setup, rule, domain, d.target)) {
      ToldExactly(event, setup, rule, domain, d);
    }
  }

  /** An event of the system goes to every active channel and to the further recipients of its domain. */
  lemma SystemNotifies(w: World, f: Finding, now: int, setup: Setup, d: Delivery)
    ensures d in After(w, System(f, now, setup)).deliveries
       <==> d in w.deliveries || (d.event == |w.events| && Told(setup, None, f.domain, d.target))
  {
    ToldExactly(|w.events|, setup, None, f.domain, d);
  }
}
