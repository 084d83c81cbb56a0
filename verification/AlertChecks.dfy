/** What one evaluation of the alert rules does: which findings become events, and how rules and evaluations mix. */
module AlertChecks {
  import opened Wrappers
  import opened Alerts

  // One rule: exactly the findings nothing covers -----------------------------------------------------------

  /** The event raised for d is one that a lookup for f finds. */
  predicate CoveredBy(d: Finding, f: Finding) {
    d.domain == f.domain && Stored(d.source) == Key(f.source)
  }

  predicate Seen(raised: seq<Finding>, f: Finding) {
    exists i :: 0 <= i < |raised| && CoveredBy(raised[i], f)
  }

  /** The findings covered neither by an event from before nor by a finding of the batch that was raised. */
  function FirstOpen(events: seq<Event>, rule: Rule, raised: seq<Finding>, todo: seq<Finding>, now: int): seq<Finding>
    decreases |todo|
  {
    if todo == [] then []
    else if Blocked(events, rule, todo[0], now) || Seen(raised, todo[0]) then
      FirstOpen(events, rule, raised, todo[1..], now)
    else [todo[0]] + FirstOpen(events, rule, raised + [todo[0]], todo[1..], now)
  }

  function NewEvents(rule: nat, findings: seq<Finding>, now: int): (events: seq<Event>)
    ensures |events| == |findings|
  {
    seq(|findings|, i requires 0 <= i < |findings| => NewEvent(Some(rule), findings[i], now))
  }

  /** Nothing is left when storing breaks at one of the new events or right after the last. */
  function Stopped(breaks: Option<nat>, events: seq<Event>, added: seq<Event>): Option<seq<Event>> {
    if breaks.Some? && breaks.value <= |added| then None else Some(events + added)
  }

  lemma RaisedBlocks(events: seq<Event>, rule: Rule, d: Finding, f: Finding, now: int)
    ensures Blocked(events + [NewEvent(Some(rule.id), d, now)], rule, f, now)
        <==> Blocked(events, rule, f, now) || CoveredBy(d, f)
  {
    var e := NewEvent(Some(rule.id), d, now);
    var grown := events + [e];
    assert Matches(e, rule.id, f) <==> CoveredBy(d, f);
    assert grown[|events|] == e;
    assert forall i :: 0 <= i < |events| ==> grown[i] == events[i];
    if Matches(e, rule.id, f) {
      assert Duplicate(grown, rule, f);
    }
    if Duplicate(events, rule, f) {
      var i :| 0 <= i < |events| && Matches(events[i], rule.id, f) && Active(events[i].status);
      assert Matches(grown[i], rule.id, f);
    }
    if InPause(events, rule, f, now) {
      var i :| 0 <= i < |events| && Matches(events[i], rule.id, f) && events[i].created > now - rule.pause;
      assert Matches(grown[i], rule.id, f);
    }
  }

  lemma SeenNext(raised: seq<Finding>, d: Finding, f: Finding)
    ensures Seen(raised + [d], f) <==> Seen(raised, f) || CoveredBy(d, f)
  {
    assert (raised + [d])[|raised|] == d;
    if Seen(raised, f) {
      var i :| 0 <= i < |raised| && CoveredBy(raised[i], f);
      assert CoveredBy((raised + [d])[i], f);
    }
  }

  /** events are those of base and one for each finding raised. */
  ghost predicate Covers(events: seq<Event>, base: seq<Event>, rule: Rule, raised: seq<Finding>, now: int) {
    forall f :: Blocked(events, rule, f, now) <==> Blocked(base, rule, f, now) || Seen(raised, f)
  }

  lemma CoversRaise(events: seq<Event>, base: seq<Event>, rule: Rule, raised: seq<Finding>, d: Finding, now: int)
    requires Covers(events, base, rule, raised, now)
    ensures Covers(events + [NewEvent(Some(rule.id), d, now)], base, rule, raised + [d], now)
  {
    forall f
      ensures Blocked(events + [NewEvent(Some(rule.id), d, now)], rule, f, now)
          <==> Blocked(base, rule, f, now) || Seen(raised + [d], f)
    {
      SeenNext(raised, d, f);
      RaisedBlocks(events, rule, d, f, now);
    }
  }

  lemma {:induction false} RaisedFrom(events: seq<Event>, base: seq<Event>, rule: Rule, raised: seq<Finding>,
                                      todo: seq<Finding>, now: int, breaks: Option<nat>)
    requires Covers(events, base, rule, raised, now)
    ensures var open := FirstOpen(base, rule, raised, todo, now);
            Raised(events, rule, todo, now, breaks) == Stopped(breaks, events, NewEvents(rule.id, open, now))
    decreases |todo|
  {
    var open := FirstOpen(base, rule, raised, todo, now);
    if todo == [] {
      assert events + NewEvents(rule.id, [], now) == events;
    } else if Blocked(events, rule, todo[0], now) {
      RaisedFrom(events, base, rule, raised, todo[1..], now, breaks);
    } else if breaks != Some(0) {
      var d := todo[0];
      CoversRaise(events, base, rule, raised, d, now);
      var e := NewEvent(Some(rule.id), d, now);
      var left := if breaks.Some? then Some(breaks.value - 1) else None;
      RaisedFrom(events + [e], base, rule, raised + [d], todo[1..], now, left);
      var rest := FirstOpen(base, rule, raised + [d], todo[1..], now);
      assert open == [d] + rest;
      assert events + [e] + NewEvents(rule.id, rest, now) == events + NewEvents(rule.id, open, now);
    }
  }

  /** Checking each finding against what is already stored, event by event, raises exactly the findings nothing covers;
      storing breaks only at one of those, or right after the last. */
  lemma RaisedExactly(events: seq<Event>, rule: Rule, findings: seq<Finding>, now: int, breaks: Option<nat>)
    ensures var open := FirstOpen(events, rule, [], findings, now);
            Raised(events, rule, findings, now, breaks) == Stopped(breaks, events, NewEvents(rule.id, open, now))
  {
    assert Covers(events, events, rule, [], now);
    RaisedFrom(events, events, rule, [], findings, now, breaks);
  }

  /** The same finding twice in one batch gives one event exactly when cleaning leaves its address alone. */
  lemma TwiceInABatch(events: seq<Event>, rule: Rule, f: Finding, now: int)
    requires !Blocked(events, rule, f, now)
    ensures Raised(events, rule, [f, f], now, None)
         == Some(events + NewEvents(rule.id, if Canonical(f) then [f] else [f, f], now))
  {
    RaisedExactly(events, rule, [f, f], now, None);
    KeyStored(f);
    SeenNext([], f, f);
    var one := [f];
    assert [] + one == one && [f, f][1..] == one && one[1..] == [];
    assert !Seen([], f) && (Seen(one, f) <==> Canonical(f));
    assert FirstOpen(events, rule, one, one, now) == if Canonical(f) then [] else one;
    assert FirstOpen(events, rule, [], [f, f], now) == one + FirstOpen(events, rule, one, one, now);
    assert one + one == [f, f] && one + [] == one;
  }

  // Several rules: each one as if it were alone --------------------------------------------------------------

  function OfRule(events: seq<Event>, rule: nat): seq<Event> {
    if events == [] then []
    else
      var last := events[|events| - 1];
      OfRule(events[..|events| - 1], rule) + if last.rule == Some(rule) then [last] else []
  }

  lemma {:induction false} OfRuleSplit(a: seq<Event>, b: seq<Event>, rule: nat)
    ensures OfRule(a + b, rule) == OfRule(a, rule) + OfRule(b, rule)
  {
    if b == [] {
      assert a + b == a;
    } else {
      assert (a + b)[..|a + b| - 1] == a + b[..|b| - 1];
      OfRuleSplit(a, b[..|b| - 1], rule);
    }
  }

  lemma {:induction false} OfRuleNew(id: nat, findings: seq<Finding>, now: int, rule: nat)
    ensures OfRule(NewEvents(id, findings, now), rule) == if id == rule then NewEvents(id, findings, now) else []
  {
    if findings != [] {
      var n := |findings| - 1;
      assert NewEvents(id, findings, now)[..n] == NewEvents(id, findings[..n], now);
      OfRuleNew(id, findings[..n], now, rule);
    }
  }

  lemma {:induction false} OfRuleHas(events: seq<Event>, rule: nat, e: Event)
    requires e.rule == Some(rule)
    ensures e in OfRule(events, rule) <==> e in events
  {
    if events != [] {
      var n := |events| - 1;
      OfRuleHas(events[..n], rule, e);
      assert events == events[..n] + [events[n]];
    }
  }

  /** A rule only looks at its own events. */
  lemma BlockedByOwn(a: seq<Event>, b: seq<Event>, rule: Rule, f: Finding, now: int)
    requires OfRule(a, rule.id) == OfRule(b, rule.id) && Blocked(a, rule, f, now)
    ensures Blocked(b, rule, f, now)
  {
    if Duplicate(a, rule, f) {
      var i :| 0 <= i < |a| && Matches(a[i], rule.id, f) && Active(a[i].status);
      OfRuleHas(a, rule.id, a[i]);
      OfRuleHas(b, rule.id, a[i]);
    } else {
      var i :| 0 <= i < |a| && Matches(a[i], rule.id, f) && a[i].created > now - rule.pause;
      OfRuleHas(a, rule.id, a[i]);
      OfRuleHas(b, rule.id, a[i]);
    }
  }

  lemma {:induction false} FirstOpenByOwn(a: seq<Event>, b: seq<Event>, rule: Rule, raised: seq<Finding>,
                                          todo: seq<Finding>, now: int)
    requires OfRule(a, rule.id) == OfRule(b, rule.id)
    ensures FirstOpen(a, rule, raised, todo, now) == FirstOpen(b, rule, raised, todo, now)
    decreases |todo|
  {
    if todo != [] {
      FirstOpenByOwn(a, b, rule, raised, todo[1..], now);
      FirstOpenByOwn(a, b, rule, raised + [todo[0]], todo[1..], now);
      if Blocked(a, rule, todo[0], now) {
        BlockedByOwn(a, b, rule, todo[0], now);
      }
      if Blocked(b, rule, todo[0], now) {
        BlockedByOwn(b, a, rule, todo[0], now);
      }
    }
  }

  predicate Runs(rule: Rule, env: Evaluation) {
    rule.active && rule.known && Findings(rule, env).Some?
  }

  /** The findings of a rule that an evaluation stores; none when it does not run or storing breaks. */
  function OpenOf(events: seq<Event>, rule: Rule, env: Evaluation): seq<Finding> {
    if !Runs(rule, env) then []
    else Unbroken(FirstOpen(events, rule, [], Findings(rule, env).value, env.now), env.breaks(rule.id))
  }

  function Unbroken(open: seq<Finding>, breaks: Option<nat>): seq<Finding> {
    if breaks.Some? && breaks.value <= |open| then [] else open
  }

  /** The events a rule adds to those there are. */
  function Added(events: seq<Event>, rule: Rule, env: Evaluation): seq<Event> {
    NewEvents(rule.id, OpenOf(events, rule, env), env.now)
  }

  lemma RuleAdds(w: World, rule: Rule, env: Evaluation)
    ensures EvaluateRule(w, rule, env).events == w.events + Added(w.events, rule, env)
    ensures Added(w.events, rule, env) == [] ==> EvaluateRule(w, rule, env) == w
  {
    if Runs(rule, env) {
      RaisedExactly(w.events, rule, Findings(rule, env).value, env.now, env.breaks(rule.id));
    }
  }

  lemma OpenByOwn(a: seq<Event>, b: seq<Event>, rule: Rule, env: Evaluation)
    requires OfRule(a, rule.id) == OfRule(b, rule.id)
    ensures OpenOf(a, rule, env) == OpenOf(b, rule, env)
  {
    if Runs(rule, env) {
      FirstOpenByOwn(a, b, rule, [], Findings(rule, env).value, env.now);
    }
  }

  lemma OutcomeByOwn(a: seq<Event>, b: seq<Event>, rule: Rule, env: Evaluation)
    requires OfRule(a, rule.id) == OfRule(b, rule.id)
    ensures Outcome(a, rule, env).Some? == Outcome(b, rule, env).Some?
  {
    if Runs(rule, env) {
      var findings := Findings(rule, env).value;
      FirstOpenByOwn(a, b, rule, [], findings, env.now);
      RaisedExactly(a, rule, findings, env.now, env.breaks(rule.id));
      RaisedExactly(b, rule, findings, env.now, env.breaks(rule.id));
    }
  }

  lemma Dropped(rules: seq<Rule>)
    requires DistinctRules(rules) && rules != []
    ensures DistinctRules(rules[..|rules| - 1])
    ensures forall i :: 0 <= i < |rules| - 1 ==> rules[i].id != rules[|rules| - 1].id
  {
  }

  /** What one rule adds is only its own. */
  lemma OwnAfter(w: World, rule: Rule, env: Evaluation, other: nat)
    ensures OfRule(EvaluateRule(w, rule, env).events, other)
         == OfRule(w.events, other) + if rule.id == other then Added(w.events, rule, env) else []
  {
    RuleAdds(w, rule, env);
    OfRuleSplit(w.events, Added(w.events, rule, env), other);
    OfRuleNew(rule.id, OpenOf(w.events, rule, env), env.now, other);
  }

  /** The last rule adds its events to what the rules before it left. */
  lemma LastAdds(w: World, rules: seq<Rule>, env: Evaluation, other: nat)
    requires rules != []
    ensures var before, last := Evaluate(w, rules[..|rules| - 1], env).events, rules[|rules| - 1];
            OfRule(Evaluate(w, rules, env).events, other)
            == OfRule(before, other) + if last.id == other then Added(before, last, env) else []
  {
    OwnAfter(Evaluate(w, rules[..|rules| - 1], env), rules[|rules| - 1], env, other);
  }

  lemma {:induction false} OthersUntouched(w: World, rules: seq<Rule>, env: Evaluation, other: nat)
    requires forall i :: 0 <= i < |rules| ==> rules[i].id != other
    ensures OfRule(Evaluate(w, rules, env).events, other) == OfRule(w.events, other)
  {
    if rules != [] {
      OthersUntouched(w, rules[..|rules| - 1], env, other);
      LastAdds(w, rules, env, other);
    }
  }

  lemma {:induction false} OwnEvents(w: World, rules: seq<Rule>, env: Evaluation, i: nat)
    requires DistinctRules(rules) && i < |rules|
    ensures OfRule(Evaluate(w, rules, env).events, rules[i].id)
         == OfRule(w.events, rules[i].id) + Added(w.events, rules[i], env)
  {
    var n := |rules| - 1;
    Dropped(rules);
    LastAdds(w, rules, env, rules[i].id);
    if i < n {
      OwnEvents(w, rules[..n], env, i);
    } else {
      OthersUntouched(w, rules[..n], env, rules[n].id);
      OpenByOwn(Evaluate(w, rules[..n], env).events, w.events, rules[n], env);
    }
  }

  /** Whatever the other rules find, and whether they break or not: the events of a rule afterwards are the ones it
      would have with no other rule around. */
  lemma RulesIndependent(w: World, rules: seq<Rule>, env: Evaluation, i: nat)
    requires DistinctRules(rules) && i < |rules|
    ensures OfRule(Evaluate(w, rules, env).events, rules[i].id)
         == OfRule(EvaluateRule(w, rules[i], env).events, rules[i].id)
  {
    OwnEvents(w, rules, env, i);
    OwnAfter(w, rules[i], env, rules[i].id);
  }

  // Again right away --------------------------------------------------------------------------------------

  /** A stored address is clean, so a lookup for an address that is not clean finds no event. */
  lemma CoveredIsCanonical(d: Finding, f: Finding)
    requires CoveredBy(d, f)
    ensures Canonical(f)
  {
    StoredClean(d.source);
  }

  predicate CleanStore(events: seq<Event>) {
    forall i :: 0 <= i < |events| ==> CleanSource(events[i].source)
  }

  lemma UncleanOpen(events: seq<Event>, rule: Rule, f: Finding, now: int)
    requires CleanStore(events) && !Canonical(f)
    ensures !Blocked(events, rule, f, now)
  {
  }

  lemma {:induction false} EvaluateClean(w: World, rules: seq<Rule>, env: Evaluation)
    requires CleanStore(w.events)
    ensures CleanStore(Evaluate(w, rules, env).events)
  {
    if rules != [] {
      var n := |rules| - 1;
      EvaluateClean(w, rules[..n], env);
      RuleClean(Evaluate(w, rules[..n], env), rules[n], env);
    }
  }

  lemma RuleClean(w: World, rule: Rule, env: Evaluation)
    requires CleanStore(w.events)
    ensures CleanStore(EvaluateRule(w, rule, env).events)
  {
    var open := OpenOf(w.events, rule, env);
    RuleAdds(w, rule, env);
    forall k | 0 <= k < |open| ensures CleanSource(NewEvents(rule.id, open, env.now)[k].source) {
      StoredClean(open[k].source);
    }
  }

  /** What is raised was open and covered by nothing raised before it. */
  lemma {:induction false} FirstOpenAt(events: seq<Event>, rule: Rule, raised: seq<Finding>, todo: seq<Finding>,
                                       now: int, k: nat)
    requires k < |FirstOpen(events, rule, raised, todo, now)|
    ensures var open := FirstOpen(events, rule, raised, todo, now);
            open[k] in todo && !Blocked(events, rule, open[k], now) && !Seen(raised + open[..k], open[k])
    decreases |todo|
  {
    var f := todo[0];
    var open := FirstOpen(events, rule, raised, todo, now);
    if Blocked(events, rule, f, now) || Seen(raised, f) {
      FirstOpenAt(events, rule, raised, todo[1..], now, k);
    } else if k == 0 {
      assert raised + open[..0] == raised;
    } else {
      FirstOpenAt(events, rule, raised + [f], todo[1..], now, k - 1);
      var rest := FirstOpen(events, rule, raised + [f], todo[1..], now);
      assert raised + [f] + rest[..k - 1] == raised + open[..k];
    }
  }

  /** What is not raised was covered. */
  lemma {:induction false} FirstOpenCovers(events: seq<Event>, rule: Rule, raised: seq<Finding>, todo: seq<Finding>,
                                           now: int, f: Finding)
    requires f in todo && !Blocked(events, rule, f, now)
    ensures f in FirstOpen(events, rule, raised, todo, now)
         || Seen(raised + FirstOpen(events, rule, raised, todo, now), f)
    decreases |todo|
  {
    var d := todo[0];
    var open := FirstOpen(events, rule, raised, todo, now);
    if Blocked(events, rule, d, now) || Seen(raised, d) {
      if f == d {
        SeenMore(raised, open, f);
      } else {
        FirstOpenCovers(events, rule, raised, todo[1..], now, f);
      }
    } else if f != d {
      FirstOpenCovers(events, rule, raised + [d], todo[1..], now, f);
      var rest := FirstOpen(events, rule, raised + [d], todo[1..], now);
      assert raised + [d] + rest == raised + open;
    }
  }

  lemma SeenMore(raised: seq<Finding>, more: seq<Finding>, f: Finding)
    requires Seen(raised, f)
    ensures Seen(raised + more, f)
  {
    var i :| 0 <= i < |raised| && CoveredBy(raised[i], f);
    assert CoveredBy((raised + more)[i], f);
  }

  lemma {:induction false} BlockedAfter(events: seq<Event>, rule: Rule, open: seq<Finding>, now: int, f: Finding)
    ensures Blocked(events + NewEvents(rule.id, open, now), rule, f, now)
        <==> Blocked(events, rule, f, now) || Seen(open, f)
  {
    if open == [] {
      assert events + NewEvents(rule.id, open, now) == events;
    } else {
      var n := |open| - 1;
      var before := events + NewEvents(rule.id, open[..n], now);
      BlockedAfter(events, rule, open[..n], now, f);
      RaisedBlocks(before, rule, open[n], f, now);
      SeenNext(open[..n], open[n], f);
      assert open[..n] + [open[n]] == open;
      assert before + [NewEvent(Some(rule.id), open[n], now)] == events + NewEvents(rule.id, open, now);
    }
  }

  lemma {:induction false} NothingOpen(events: seq<Event>, rule: Rule, raised: seq<Finding>, todo: seq<Finding>,
                                       now: int)
    requires forall f :: f in todo ==> Blocked(events, rule, f, now)
    ensures FirstOpen(events, rule, raised, todo, now) == []
    decreases |todo|
  {
    if todo != [] {
      NothingOpen(events, rule, raised, todo[1..], now);
    }
  }

  /** A second pass over the same findings raises at most as many. */
  lemma {:induction false} FewerOpen(events: seq<Event>, later: seq<Event>, rule: Rule, raised: seq<Finding>,
                                     again: seq<Finding>, todo: seq<Finding>, now: int, all: seq<Finding>)
    requires all == raised + FirstOpen(events, rule, raised, todo, now)
    requires forall f :: Blocked(later, rule, f, now) <==> Blocked(events, rule, f, now) || Seen(all, f)
    ensures |FirstOpen(later, rule, again, todo, now)| <= |FirstOpen(events, rule, raised, todo, now)|
    decreases |todo|
  {
    if todo != [] {
      var d := todo[0];
      if Blocked(events, rule, d, now) || Seen(raised, d) {
        if Seen(raised, d) {
          SeenMore(raised, FirstOpen(events, rule, raised, todo, now), d);
        }
        FewerOpen(events, later, rule, raised, again, todo[1..], now, all);
      } else {
        assert raised + [d] + FirstOpen(events, rule, raised + [d], todo[1..], now) == all;
        FewerOpen(events, later, rule, raised + [d], again, todo[1..], now, all);
        FewerOpen(events, later, rule, raised + [d], again + [d], todo[1..], now, all);
      }
    }
  }

  predicate AllCanonical(findings: seq<Finding>) {
    forall i :: 0 <= i < |findings| ==> Canonical(findings[i])
  }

  /** After its turn a rule adds nothing to the events of its own exactly when all it stored had clean addresses. */
  lemma AddsAgain(events: seq<Event>, rule: Rule, findings: seq<Finding>, now: int, breaks: Option<nat>)
    ensures var open := Unbroken(FirstOpen(events, rule, [], findings, now), breaks);
            var again := FirstOpen(events + NewEvents(rule.id, open, now), rule, [], findings, now);
            Unbroken(again, breaks) == [] <==> AllCanonical(open)
  {
    var first := FirstOpen(events, rule, [], findings, now);
    var open := Unbroken(first, breaks);
    var later := events + NewEvents(rule.id, open, now);
    forall f ensures Blocked(later, rule, f, now) <==> Blocked(events, rule, f, now) || Seen(open, f) {
      BlockedAfter(events, rule, open, now, f);
    }
    if open != first {
      assert later == events;
    } else if AllCanonical(open) {
      OpenBlocks(events, later, rule, findings, now, open);
      NothingOpen(later, rule, [], findings, now);
    } else {
      assert [] + first == first;
      FewerOpen(events, later, rule, [], [], findings, now, open);
      OpenAgain(events, later, rule, findings, now, open);
    }
  }

  lemma OpenBlocks(events: seq<Event>, later: seq<Event>, rule: Rule, findings: seq<Finding>, now: int,
                   open: seq<Finding>)
    requires open == FirstOpen(events, rule, [], findings, now) && AllCanonical(open)
    requires forall f :: Blocked(later, rule, f, now) <==> Blocked(events, rule, f, now) || Seen(open, f)
    ensures forall f :: f in findings ==> Blocked(later, rule, f, now)
  {
    forall f | f in findings ensures Blocked(later, rule, f, now) {
      if !Blocked(events, rule, f, now) {
        assert [] + open == open;
        FirstOpenCovers(events, rule, [], findings, now, f);
        if f in open {
          var k :| 0 <= k < |open| && open[k] == f;
          KeyStored(f);
          assert CoveredBy(open[k], f);
        }
      }
    }
  }

  lemma OpenAgain(events: seq<Event>, later: seq<Event>, rule: Rule, findings: seq<Finding>, now: int,
                  open: seq<Finding>)
    requires open == FirstOpen(events, rule, [], findings, now) && !AllCanonical(open)
    requires forall f :: Blocked(later, rule, f, now) <==> Blocked(events, rule, f, now) || Seen(open, f)
    ensures FirstOpen(later, rule, [], findings, now) != []
  {
    var k :| 0 <= k < |open| && !Canonical(open[k]);
    var f := open[k];
    FirstOpenAt(events, rule, [], findings, now, k);
    if Seen(open, f) {
      var i :| 0 <= i < |open| && CoveredBy(open[i], f);
      CoveredIsCanonical(open[i], f);
    }
    FirstOpenCovers(later, rule, [], findings, now, f);
    assert [] + FirstOpen(later, rule, [], findings, now) == FirstOpen(later, rule, [], findings, now);
  }

  lemma AllCanonicalNext(f: Finding, rest: seq<Finding>)
    ensures AllCanonical([f] + rest) <==> Canonical(f) && AllCanonical(rest)
  {
    var all := [f] + rest;
    if AllCanonical(all) {
      assert Canonical(all[0]);
      forall i | 0 <= i < |rest| ensures Canonical(rest[i]) {
        assert Canonical(all[i + 1]);
      }
    }
  }

  /** No lookup finds an address that is not clean, so a finding with one is stored whenever its rule goes through. */
  lemma {:induction false} OpenReported(events: seq<Event>, rule: Rule, raised: seq<Finding>, todo: seq<Finding>,
                                        now: int)
    requires CleanStore(events)
    ensures AllCanonical(FirstOpen(events, rule, raised, todo, now)) <==> AllCanonical(todo)
    decreases |todo|
  {
    if todo != [] {
      var d := todo[0];
      assert todo == [d] + todo[1..];
      AllCanonicalNext(d, todo[1..]);
      if Blocked(events, rule, d, now) || Seen(raised, d) {
        OpenReported(events, rule, raised, todo[1..], now);
        if !Canonical(d) {
          UncleanOpen(events, rule, d, now);
          var i :| 0 <= i < |raised| && CoveredBy(raised[i], d);
          CoveredIsCanonical(raised[i], d);
        }
      } else {
        var rest := FirstOpen(events, rule, raised + [d], todo[1..], now);
        OpenReported(events, rule, raised + [d], todo[1..], now);
        AllCanonicalNext(d, rest);
      }
    }
  }

  /** When the rule goes through, all it reports has clean addresses. */
  predicate ReportsClean(events: seq<Event>, rule: Rule, env: Evaluation) {
    Outcome(events, rule, env).Some? ==> AllCanonical(Findings(rule, env).value)
  }

  lemma StoresClean(events: seq<Event>, rule: Rule, env: Evaluation)
    requires CleanStore(events)
    ensures AllCanonical(OpenOf(events, rule, env)) <==> ReportsClean(events, rule, env)
  {
    if Runs(rule, env) {
      var findings := Findings(rule, env).value;
      RaisedExactly(events, rule, findings, env.now, env.breaks(rule.id));
      OpenReported(events, rule, [], findings, env.now);
    }
  }

  /** An evaluation that follows at the same time, with the same findings and breakdowns, changes nothing exactly when
      every rule that goes through reports only addresses that cleaning leaves alone. */
  lemma SecondCheckExactly(w: World, rules: seq<Rule>, env: Evaluation)
    requires DistinctRules(rules) && CleanStore(w.events)
    ensures Evaluate(Evaluate(w, rules, env), rules, env) == Evaluate(w, rules, env)
        <==> forall i :: 0 <= i < |rules| ==> ReportsClean(w.events, rules[i], env)
  {
    var done := Evaluate(w, rules, env);
    forall i | 0 <= i < |rules|
      ensures Added(done.events, rules[i], env) == [] <==> ReportsClean(w.events, rules[i], env)
    {
      TurnAgain(w, rules, env, i);
      StoresClean(w.events, rules[i], env);
    }
    if forall i :: 0 <= i < |rules| ==> Added(done.events, rules[i], env) == [] {
      IdleRules(done, rules, env);
    } else {
      var i :| 0 <= i < |rules| && Added(done.events, rules[i], env) != [];
      RulesIndependent(done, rules, env, i);
      OwnAfter(done, rules[i], env, rules[i].id);
    }
  }

  lemma TurnAgain(w: World, rules: seq<Rule>, env: Evaluation, i: nat)
    requires DistinctRules(rules) && i < |rules|
    ensures Added(Evaluate(w, rules, env).events, rules[i], env) == []
        <==> AllCanonical(OpenOf(w.events, rules[i], env))
  {
    var rule := rules[i];
    RulesIndependent(w, rules, env, i);
    RuleAdds(w, rule, env);
    OpenByOwn(Evaluate(w, rules, env).events, w.events + Added(w.events, rule, env), rule, env);
    if Runs(rule, env) {
      AddsAgain(w.events, rule, Findings(rule, env).value, env.now, env.breaks(rule.id));
    }
  }

  lemma {:induction false} IdleRules(w: World, rules: seq<Rule>, env: Evaluation)
    requires forall i :: 0 <= i < |rules| ==> Added(w.events, rules[i], env) == []
    ensures Evaluate(w, rules, env) == w
  {
    if rules != [] {
      var n := |rules| - 1;
      IdleRules(w, rules[..n], env);
      RuleAdds(w, rules[n], env);
    }
  }
}
