/** When a finding becomes an event, what the event holds, and what each way of closing events changes. */
module AlertRules {
  import opened Wrappers
  import Text
  import opened Alerts
  import opened AlertChecks

  // One finding ---------------------------------------------------------------------------------------------

  /** An event of the rule with the domain and address of the finding is open or acknowledged, or the rule has a pause
      and the event is younger than that. */
  predicate Hindered(events: seq<Event>, rule: Rule, domain: Option<nat>, source: Option<string>, now: int) {
    exists i :: 0 <= i < |events| && Hinders(events[i], rule, domain, source, now)
  }

  predicate Hinders(e: Event, rule: Rule, domain: Option<nat>, source: Option<string>, now: int) {
    && e.rule == Some(rule.id) && e.domain == domain && e.source == source
    && (e.status == Open || e.status == Acknowledged || (rule.pause > 0 && e.created + rule.pause > now))
  }

  /** An address that is given and not empty. */
  function Given(source: Option<string>): Option<string> {
    if source.Some? && source.value != "" then source else None
  }

  lemma BlockedExactly(events: seq<Event>, rule: Rule, f: Finding, now: int)
    ensures Blocked(events, rule, f, now) <==> Hindered(events, rule, f.domain, Given(f.source), now)
  {
    forall i | 0 <= i < |events|
      ensures Matches(events[i], rule.id, f) && Active(events[i].status) ==>
                Hinders(events[i], rule, f.domain, Given(f.source), now)
    {
    }
    if Hindered(events, rule, f.domain, Given(f.source), now) {
      var i :| 0 <= i < |events| && Hinders(events[i], rule, f.domain, Given(f.source), now);
      assert Matches(events[i], rule.id, f);
    }
  }

  /** A finding with a clean address is stored as it is, open and of now, unless an event hinders it. */
  lemma RaisesExactly(events: seq<Event>, rule: Rule, f: Finding, now: int)
    requires Canonical(f)
    ensures Raised(events, rule, [f], now, None)
         == Some(if Hindered(events, rule, f.domain, Given(f.source), now) then events
                 else events + [Event(Some(rule.id), f.domain, Given(f.source), Open, now)])
  {
    BlockedExactly(events, rule, f, now);
    KeyStored(f);
    RaisedOne(events, rule, f, now);
  }

  lemma RaisedOne(events: seq<Event>, rule: Rule, f: Finding, now: int)
    ensures Raised(events, rule, [f], now, None)
         == Some(if Blocked(events, rule, f, now) then events else events + [NewEvent(Some(rule.id), f, now)])
  {
    assert [f][1..] == [];
    assert Raised(events + [NewEvent(Some(rule.id), f, now)], rule, [], now, None)
        == Some(events + [NewEvent(Some(rule.id), f, now)]);
  }

  /** A finding with an address that cleaning changes is always stored where all stored addresses are clean, without its
      control characters and cut to 45 characters, and without address when nothing is left. */
  lemma UncleanRaises(events: seq<Event>, rule: Rule, f: Finding, now: int)
    requires !Canonical(f) && CleanStore(events)
    ensures var text := Text.DropControls(f.source.value);
            var stored := if |text| > 45 then text[..45] else text;
            Raised(events, rule, [f], now, None)
            == Some(events + [Event(Some(rule.id), f.domain, if stored == "" then None else Some(stored), Open, now)])
  {
    UncleanOpen(events, rule, f, now);
    RaisedOne(events, rule, f, now);
  }

  // One rule --------------------------------------------------------------------------------------------------

  /** A rule that is switched off or of an unknown kind does nothing; one that stores events notes the time and when its
      pause ends, and one that stores none notes nothing. */
  lemma RuleRuns(w: World, rule: Rule, env: Evaluation)
    ensures var next := EvaluateRule(w, rule, env);
            && (!rule.active || !rule.known ==> next == w)
            && w.events <= next.events
            && next.triggered
               == if |next.events| > |w.events| then w.triggered[rule.id := (env.now, env.now + rule.pause)]
                  else w.triggered
  {
    OutcomeAppends(w.events, rule, env);
  }

  /** A rule of one domain, and one of a kind that looks at all domains at once, is checked once. */
  lemma CheckedOnce(rule: Rule, env: Evaluation)
    requires rule.domain.Some? || !rule.perDomain
    ensures Findings(rule, env) == env.check(rule.id, rule.domain)
  {
  }

  /** Any other rule is checked for each active domain; it finds what the checks find, and breaks when one does. */
  lemma CheckedPerDomain(rule: Rule, env: Evaluation, f: Finding)
    requires rule.domain.None? && rule.perDomain
    ensures Findings(rule, env).Some?
       <==> forall k :: 0 <= k < |env.setup.domains| ==> env.check(rule.id, Some(env.setup.domains[k])).Some?
    ensures Findings(rule, env).Some? ==>
              (f in Findings(rule, env).value
               <==> exists k :: 0 <= k < |env.setup.domains| && Finds(rule.id, env.setup.domains[k], env, f))
  {
    InEachDomain(rule.id, env.setup.domains, env, f);
  }

  predicate Finds(rule: nat, domain: nat, env: Evaluation, f: Finding) {
    env.check(rule, Some(domain)).Some? && f in env.check(rule, Some(domain)).value
  }

  lemma {:induction false} InEachDomain(rule: nat, domains: seq<nat>, env: Evaluation, f: Finding)
    ensures var found := InDomains(rule, domains, env.check);
            && (found.Some? <==> forall k :: 0 <= k < |domains| ==> env.check(rule, Some(domains[k])).Some?)
            && (found.Some? ==>
                  (f in found.value <==> exists k :: 0 <= k < |domains| && Finds(rule, domains[k], env, f)))
  {
    if domains != [] {
      var rest := domains[1..];
      InEachDomain(rule, rest, env, f);
      assert forall k :: 0 < k < |domains| ==> domains[k] == rest[k - 1];
      assert forall k :: 0 <= k < |rest| ==> rest[k] == domains[k + 1];
      if exists k :: 0 <= k < |rest| && Finds(rule, rest[k], env, f) {
        var k :| 0 <= k < |rest| && Finds(rule, rest[k], env, f);
        assert Finds(rule, domains[k + 1], env, f);
      }
    }
  }

  // Closing events ---------------------------------------------------------------------------------------------

  /** Seeing and closing change the status and nothing else: alone whatever it was, of a group for seeing only the open
      events, for closing all but the resolved ones. */
  lemma StatusExactly(w: World, step: Step, i: nat)
    requires ValidStep(w, step) && i < |w.events|
    ensures var status := w.events[i].status;
            step.Acknowledge? || step.Resolve? || step.AcknowledgeAll? || step.ResolveAll? ==>
              && |After(w, step).events| == |w.events|
              && After(w, step).events[i]
                 == w.events[i].(status :=
                      match step
                      case Acknowledge(k) => if k == i then Acknowledged else status
                      case Resolve(k) => if k == i then Resolved else status
                      case AcknowledgeAll(members) =>
                        if i in members && status == Open then Acknowledged else status
                      case ResolveAll(members) =>
                        if i in members && status != Resolved then Resolved else status
                      case _ => status)
  {
  }
}
