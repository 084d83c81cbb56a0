/** What raising and closing alerts guarantees over every run. */
module AlertRuns {
  import opened Wrappers
  import Text
  import opened Alerts
  import opened AlertChecks

  // Subjects -------------------------------------------------------------------------------------------------

  predicate SameSubject(a: Event, b: Event) {
    a.rule.Some? && a.rule == b.rule && a.domain == b.domain && a.source == b.source
  }

  predicate Clash(a: Event, b: Event) {
    SameSubject(a, b) && Active(a.status) && Active(b.status)
  }

  /** At most one active event per rule, domain and stored address. */
  predicate Unique(events: seq<Event>) {
    forall i, j :: 0 <= i < j < |events| ==> !Clash(events[i], events[j])
  }

  /** At least the pause between two events of one subject; least gives a pause every rule had at any time. */
  predicate Apart(a: Event, b: Event, least: nat -> nat) {
    SameSubject(a, b) && least(a.rule.value) > 0 ==> b.created - a.created >= least(a.rule.value)
  }

  predicate Spaced(events: seq<Event>, least: nat -> nat) {
    forall i, j :: 0 <= i < j < |events| ==> Apart(events[i], events[j], least)
  }

  // Both say that something holds of every two events, the earlier one first ----------------------------------

  type Pair = (Event, Event) -> bool

  predicate Pairwise(events: seq<Event>, ok: Pair) {
    forall i, j :: 0 <= i < j < |events| ==> ok(events[i], events[j])
  }

  function Quiet(): Pair { (a: Event, b: Event) => !Clash(a, b) }

  function Pausing(least: nat -> nat): Pair { (a: Event, b: Event) => Apart(a, b, least) }

  lemma PairsNext(events: seq<Event>, e: Event, ok: Pair)
    ensures Pairwise(events + [e], ok)
        <==> Pairwise(events, ok) && forall i :: 0 <= i < |events| ==> ok(events[i], e)
  {
    var all := events + [e];
    assert all[|events|] == e && forall i :: 0 <= i < |events| ==> all[i] == events[i];
    if Pairwise(all, ok) {
      forall i, j | 0 <= i < j < |events| ensures ok(events[i], events[j]) {
        assert ok(all[i], all[j]);
      }
      forall i | 0 <= i < |events| ensures ok(events[i], e) {
        assert ok(all[i], all[|events|]);
      }
    }
  }

  /** Two events of different subjects never matter. */
  ghost predicate OfSubjects(ok: Pair) {
    forall a, b :: !SameSubject(a, b) ==> ok(a, b)
  }

  predicate Unblocking(e: Event, rule: Rule, now: int) {
    !Active(e.status) && !(rule.pause != 0 && e.created > now - rule.pause)
  }

  /** An event that does not block a finding suits the event raised for it. */
  ghost predicate KeptByLookup(ok: Pair, rule: Rule, now: int) {
    forall a, b ::
      SameSubject(a, b) && b.rule == Some(rule.id) && b.created == now && Unblocking(a, rule, now) ==> ok(a, b)
  }

  // One rule -----------------------------------------------------------------------------------------------------

  /** The event of a finding suits those there were, and those of the findings before it that were open then. */
  predicate Fits(events: seq<Event>, rule: Rule, findings: seq<Finding>, k: nat, now: int, ok: Pair)
    requires k < |findings|
  {
    var e := NewEvent(Some(rule.id), findings[k], now);
    && (forall i :: 0 <= i < |events| ==> ok(events[i], e))
    && (forall j :: 0 <= j < k && !Blocked(events, rule, findings[j], now) ==>
          ok(NewEvent(Some(rule.id), findings[j], now), e))
  }

  predicate CleanOrFits(events: seq<Event>, rule: Rule, findings: seq<Finding>, k: nat, now: int, ok: Pair)
    requires k < |findings|
  {
    Canonical(findings[k]) || Fits(events, rule, findings, k, now, ok)
  }

  /** The event of one of the first k findings that were open at first. */
  predicate OfOpen(base: seq<Event>, rule: Rule, findings: seq<Finding>, k: nat, now: int, e: Event)
    requires k <= |findings|
  {
    exists j :: 0 <= j < k && !Blocked(base, rule, findings[j], now) && NewEvent(Some(rule.id), findings[j], now) == e
  }

  ghost predicate Grown(events: seq<Event>, base: seq<Event>, rule: Rule, findings: seq<Finding>, k: nat, now: int)
    requires k <= |findings|
  {
    forall e :: e in events <==> e in base || OfOpen(base, rule, findings, k, now, e)
  }

  lemma OfOpenNext(base: seq<Event>, rule: Rule, findings: seq<Finding>, k: nat, now: int, e: Event)
    requires k < |findings|
    ensures OfOpen(base, rule, findings, k + 1, now, e)
        <==> OfOpen(base, rule, findings, k, now, e)
             || (!Blocked(base, rule, findings[k], now) && NewEvent(Some(rule.id), findings[k], now) == e)
  {
  }

  lemma GrownClean(events: seq<Event>, base: seq<Event>, rule: Rule, findings: seq<Finding>, k: nat, now: int)
    requires k <= |findings| && CleanStore(base) && Grown(events, base, rule, findings, k, now)
    ensures CleanStore(events)
  {
    forall i | 0 <= i < |events| ensures CleanSource(events[i].source) {
      assert events[i] in events;
      if events[i] in base {
        var b :| 0 <= b < |base| && base[b] == events[i];
        assert CleanSource(base[b].source);
      } else {
        assert OfOpen(base, rule, findings, k, now, events[i]);
        var j :| 0 <= j < k && NewEvent(Some(rule.id), findings[j], now) == events[i];
        StoredClean(findings[j].source);
        var e := NewEvent(Some(rule.id), findings[j], now);
        assert e == events[i] && e.source == Stored(findings[j].source);
      }
    }
  }

  lemma BlockedInMore(base: seq<Event>, events: seq<Event>, rule: Rule, f: Finding, now: int)
    requires Blocked(base, rule, f, now) && forall e :: e in base ==> e in events
    ensures Blocked(events, rule, f, now)
  {
    if Duplicate(base, rule, f) {
      var i :| 0 <= i < |base| && Matches(base[i], rule.id, f) && Active(base[i].status);
      assert base[i] in base;
      var j :| 0 <= j < |events| && events[j] == base[i];
    } else {
      var i :| 0 <= i < |base| && Matches(base[i], rule.id, f) && base[i].created > now - rule.pause;
      assert base[i] in base;
      var j :| 0 <= j < |events| && events[j] == base[i];
    }
  }

  /** A finding that is blocked only by what the batch stored has the event of an earlier one. */
  lemma GrownBlocked(events: seq<Event>, base: seq<Event>, rule: Rule, findings: seq<Finding>, k: nat, now: int)
    requires k < |findings| && CleanStore(base) && Grown(events, base, rule, findings, k, now)
    requires Blocked(events, rule, findings[k], now)
    ensures Canonical(findings[k]) && Grown(events, base, rule, findings, k + 1, now)
  {
    var f := findings[k];
    GrownClean(events, base, rule, findings, k, now);
    if !Canonical(f) {
      UncleanOpen(events, rule, f, now);
    }
    if !Blocked(base, rule, f, now) {
      var i :| 0 <= i < |events| && Matches(events[i], rule.id, f)
            && (Active(events[i].status) || (rule.pause != 0 && events[i].created > now - rule.pause));
      assert OfOpen(base, rule, findings, k, now, events[i]);
      KeyStored(f);
      assert events[i] == NewEvent(Some(rule.id), f, now);
    }
    forall e ensures OfOpen(base, rule, findings, k + 1, now, e) ==> e in events {
      OfOpenNext(base, rule, findings, k, now, e);
    }
    forall e ensures OfOpen(base, rule, findings, k, now, e) ==> OfOpen(base, rule, findings, k + 1, now, e) {
      OfOpenNext(base, rule, findings, k, now, e);
    }
  }

  lemma GrownRaised(events: seq<Event>, base: seq<Event>, rule: Rule, findings: seq<Finding>, k: nat, now: int)
    requires k < |findings| && Grown(events, base, rule, findings, k, now)
    requires !Blocked(events, rule, findings[k], now)
    ensures Grown(events + [NewEvent(Some(rule.id), findings[k], now)], base, rule, findings, k + 1, now)
  {
    if Blocked(base, rule, findings[k], now) {
      BlockedInMore(base, events, rule, findings[k], now);
    }
    forall e ensures OfOpen(base, rule, findings, k + 1, now, e)
        <==> OfOpen(base, rule, findings, k, now, e) || NewEvent(Some(rule.id), findings[k], now) == e {
      OfOpenNext(base, rule, findings, k, now, e);
    }
  }

  /** The event of the next finding suits all there are by now: with a clean address always, otherwise as Fits says. */
  lemma NextSuits(events: seq<Event>, base: seq<Event>, rule: Rule, findings: seq<Finding>, k: nat, now: int, ok: Pair)
    requires k < |findings| && Grown(events, base, rule, findings, k, now)
    requires OfSubjects(ok) && KeptByLookup(ok, rule, now) && !Blocked(events, rule, findings[k], now)
    ensures (forall i :: 0 <= i < |events| ==> ok(events[i], NewEvent(Some(rule.id), findings[k], now)))
        <==> CleanOrFits(base, rule, findings, k, now, ok)
  {
    var e := NewEvent(Some(rule.id), findings[k], now);
    if Canonical(findings[k]) {
      KeyStored(findings[k]);
      forall i | 0 <= i < |events| ensures ok(events[i], e) {
        if SameSubject(events[i], e) {
          assert Matches(events[i], rule.id, findings[k]);
        }
      }
    } else if Fits(base, rule, findings, k, now, ok) {
      forall i | 0 <= i < |events| ensures ok(events[i], e) {
        assert events[i] in base || OfOpen(base, rule, findings, k, now, events[i]);
      }
    } else if forall i :: 0 <= i < |events| ==> ok(events[i], e) {
      forall i | 0 <= i < |base| ensures ok(base[i], e) {
        assert base[i] in base && base[i] in events;
      }
      forall j | 0 <= j < k && !Blocked(base, rule, findings[j], now)
        ensures ok(NewEvent(Some(rule.id), findings[j], now), e)
      {
        assert OfOpen(base, rule, findings, k, now, NewEvent(Some(rule.id), findings[j], now));
        assert NewEvent(Some(rule.id), findings[j], now) in events;
      }
    }
  }

  lemma {:induction false} RaisedPairs(events: seq<Event>, base: seq<Event>, rule: Rule, findings: seq<Finding>, k: nat,
                                       now: int, breaks: Option<nat>, ok: Pair)
    requires k <= |findings| && CleanStore(base) && Grown(events, base, rule, findings, k, now)
    requires OfSubjects(ok) && KeptByLookup(ok, rule, now)
    ensures var raised := Raised(events, rule, findings[k..], now, breaks);
            raised.Some? ==>
              (Pairwise(raised.value, ok)
               <==> Pairwise(events, ok)
                    && forall m: nat :: k <= m < |findings| ==> CleanOrFits(base, rule, findings, m, now, ok))
    decreases |findings| - k
  {
    if k < |findings| {
      var f, rest := findings[k], findings[k..][1..];
      assert rest == findings[k + 1..];
      if Blocked(events, rule, f, now) {
        GrownBlocked(events, base, rule, findings, k, now);
        RaisedPairs(events, base, rule, findings, k + 1, now, breaks, ok);
      } else if breaks != Some(0) {
        var e := NewEvent(Some(rule.id), f, now);
        var left := if breaks.Some? then Some(breaks.value - 1) else None;
        GrownRaised(events, base, rule, findings, k, now);
        RaisedPairs(events + [e], base, rule, findings, k + 1, now, left, ok);
        PairsNext(events, e, ok);
        NextSuits(events, base, rule, findings, k, now, ok);
      }
    }
  }

  /** When the rule goes through, each of its findings is clean or fits. */
  predicate RuleFits(events: seq<Event>, rule: Rule, env: Evaluation, ok: Pair) {
    Outcome(events, rule, env).Some? ==> AllFit(events, rule, Findings(rule, env).value, env.now, ok)
  }

  predicate AllFit(events: seq<Event>, rule: Rule, findings: seq<Finding>, now: int, ok: Pair) {
    forall k: nat :: k < |findings| ==> CleanOrFits(events, rule, findings, k, now, ok)
  }

  lemma RulePairs(w: World, rule: Rule, env: Evaluation, ok: Pair)
    requires CleanStore(w.events) && OfSubjects(ok) && KeptByLookup(ok, rule, env.now)
    ensures Pairwise(EvaluateRule(w, rule, env).events, ok)
        <==> Pairwise(w.events, ok) && RuleFits(w.events, rule, env, ok)
  {
    if Outcome(w.events, rule, env).Some? {
      var findings := Findings(rule, env).value;
      assert Grown(w.events, w.events, rule, findings, 0, env.now);
      RaisedPairs(w.events, w.events, rule, findings, 0, env.now, env.breaks(rule.id), ok);
      assert findings[0..] == findings;
      OutcomeAppends(w.events, rule, env);
    }
  }

  // Several rules --------------------------------------------------------------------------------------------------

  lemma FitsByOwn(a: seq<Event>, b: seq<Event>, rule: Rule, findings: seq<Finding>, k: nat, now: int, ok: Pair)
    requires OfSubjects(ok) && OfRule(a, rule.id) == OfRule(b, rule.id)
    requires k < |findings| && Fits(a, rule, findings, k, now, ok)
    ensures Fits(b, rule, findings, k, now, ok)
  {
    var e := NewEvent(Some(rule.id), findings[k], now);
    forall i | 0 <= i < |b| ensures ok(b[i], e) {
      if SameSubject(b[i], e) {
        OfRuleHas(b, rule.id, b[i]);
        OfRuleHas(a, rule.id, b[i]);
      }
    }
    forall j | 0 <= j < k && !Blocked(b, rule, findings[j], now)
      ensures ok(NewEvent(Some(rule.id), findings[j], now), e)
    {
      if Blocked(a, rule, findings[j], now) {
        BlockedByOwn(a, b, rule, findings[j], now);
      }
    }
  }

  /** Events of other rules do not matter to a rule. */
  lemma RuleFitsByOwn(a: seq<Event>, b: seq<Event>, rule: Rule, env: Evaluation, ok: Pair)
    requires OfSubjects(ok) && OfRule(a, rule.id) == OfRule(b, rule.id) && RuleFits(a, rule, env, ok)
    ensures RuleFits(b, rule, env, ok)
  {
    OutcomeByOwn(a, b, rule, env);
    if Outcome(b, rule, env).Some? {
      var findings := Findings(rule, env).value;
      forall k: nat | k < |findings| ensures CleanOrFits(b, rule, findings, k, env.now, ok) {
        assert CleanOrFits(a, rule, findings, k, env.now, ok);
        if !Canonical(findings[k]) {
          FitsByOwn(a, b, rule, findings, k, env.now, ok);
        }
      }
    }
  }

  predicate RulesFit(events: seq<Event>, rules: seq<Rule>, env: Evaluation, ok: Pair) {
    forall i: nat :: i < |rules| ==> RuleFits(events, rules[i], env, ok)
  }

  lemma RulesFitNext(events: seq<Event>, rules: seq<Rule>, env: Evaluation, ok: Pair)
    requires rules != []
    ensures RulesFit(events, rules, env, ok)
        <==> RulesFit(events, rules[..|rules| - 1], env, ok) && RuleFits(events, rules[|rules| - 1], env, ok)
  {
    var n := |rules| - 1;
    assert forall i: nat :: i < n ==> rules[..n][i] == rules[i];
  }

  lemma RuleFitsAlone(w: World, rules: seq<Rule>, env: Evaluation, ok: Pair, before: World)
    requires rules != [] && DistinctRules(rules) && OfSubjects(ok) && before == Evaluate(w, rules[..|rules| - 1], env)
    ensures RuleFits(before.events, rules[|rules| - 1], env, ok) <==> RuleFits(w.events, rules[|rules| - 1], env, ok)
  {
    var n := |rules| - 1;
    Dropped(rules);
    OthersUntouched(w, rules[..n], env, rules[n].id);
    if RuleFits(before.events, rules[n], env, ok) {
      RuleFitsByOwn(before.events, w.events, rules[n], env, ok);
    }
    if RuleFits(w.events, rules[n], env, ok) {
      RuleFitsByOwn(w.events, before.events, rules[n], env, ok);
    }
  }

  /** An evaluation keeps what holds of every two events exactly when every finding that goes through is clean or fits
      what there was before. */
  lemma {:induction false} EvaluatePairs(w: World, rules: seq<Rule>, env: Evaluation, ok: Pair)
    requires CleanStore(w.events) && DistinctRules(rules) && OfSubjects(ok)
    requires forall i :: 0 <= i < |rules| ==> KeptByLookup(ok, rules[i], env.now)
    ensures Pairwise(Evaluate(w, rules, env).events, ok)
        <==> Pairwise(w.events, ok) && RulesFit(w.events, rules, env, ok)
  {
    if rules != [] {
      var n := |rules| - 1;
      Dropped(rules);
      EvaluatePairs(w, rules[..n], env, ok);
      EvaluateClean(w, rules[..n], env);
      RulePairs(Evaluate(w, rules[..n], env), rules[n], env, ok);
      RuleFitsAlone(w, rules, env, ok, Evaluate(w, rules[..n], env));
      RulesFitNext(w.events, rules, env, ok);
    }
  }

  // What a caller can look at before a check ----------------------------------------------------------------------

  /** The finding under the address it is stored with. */
  function Tidy(f: Finding): Finding { Finding(f.domain, Stored(f.source)) }

  /** An earlier finding of the batch that is open is stored with the same domain and address. */
  predicate Repeated(events: seq<Event>, rule: Rule, findings: seq<Finding>, k: nat, now: int)
    requires k < |findings|
  {
    exists j :: 0 <= j < k && Tidy(findings[j]) == Tidy(findings[k]) && !Blocked(events, rule, findings[j], now)
  }

  /** Unless its address is clean, looking for it as it is stored finds no active event, nor an earlier finding. */
  predicate FindingCareful(events: seq<Event>, rule: Rule, findings: seq<Finding>, k: nat, now: int)
    requires k < |findings|
  {
    Canonical(findings[k])
    || (!Duplicate(events, rule, Tidy(findings[k])) && !Repeated(events, rule, findings, k, now))
  }

  /** The same with an event younger than the pause. */
  predicate FindingPatient(events: seq<Event>, rule: Rule, least: nat, findings: seq<Finding>, k: nat, now: int)
    requires k < |findings|
  {
    Canonical(findings[k]) || least == 0
    || (!InPause(events, rule.(pause := least), Tidy(findings[k]), now)
        && !Repeated(events, rule, findings, k, now))
  }

  predicate RuleCareful(events: seq<Event>, rule: Rule, env: Evaluation) {
    Outcome(events, rule, env).Some? ==> AllCareful(events, rule, Findings(rule, env).value, env.now)
  }

  predicate AllCareful(events: seq<Event>, rule: Rule, findings: seq<Finding>, now: int) {
    forall k: nat :: k < |findings| ==> FindingCareful(events, rule, findings, k, now)
  }

  predicate RulePatient(events: seq<Event>, rule: Rule, least: nat, env: Evaluation) {
    Outcome(events, rule, env).Some? ==> AllPatient(events, rule, least, Findings(rule, env).value, env.now)
  }

  predicate AllPatient(events: seq<Event>, rule: Rule, least: nat, findings: seq<Finding>, now: int) {
    forall k: nat :: k < |findings| ==> FindingPatient(events, rule, least, findings, k, now)
  }

  lemma TidyMatches(e: Event, rule: nat, f: Finding, now: int)
    ensures Matches(e, rule, Tidy(f)) <==> SameSubject(e, NewEvent(Some(rule), f, now))
  {
    StoredClean(f.source);
  }

  lemma QuietFits(events: seq<Event>, rule: Rule, findings: seq<Finding>, k: nat, now: int)
    requires k < |findings|
    ensures CleanOrFits(events, rule, findings, k, now, Quiet()) <==> FindingCareful(events, rule, findings, k, now)
  {
    var e := NewEvent(Some(rule.id), findings[k], now);
    forall i | 0 <= i < |events|
      ensures Quiet()(events[i], e) <==> !(Matches(events[i], rule.id, Tidy(findings[k])) && Active(events[i].status))
    {
      TidyMatches(events[i], rule.id, findings[k], now);
    }
    forall j | 0 <= j < k
      ensures Quiet()(NewEvent(Some(rule.id), findings[j], now), e) <==> Tidy(findings[j]) != Tidy(findings[k])
    {
    }
  }

  lemma PausingFits(events: seq<Event>, rule: Rule, least: nat -> nat, findings: seq<Finding>, k: nat, now: int)
    requires k < |findings|
    ensures CleanOrFits(events, rule, findings, k, now, Pausing(least))
        <==> FindingPatient(events, rule, least(rule.id), findings, k, now)
  {
    var e, pause := NewEvent(Some(rule.id), findings[k], now), least(rule.id);
    forall i | 0 <= i < |events|
      ensures Pausing(least)(events[i], e)
          <==> pause == 0 || !(Matches(events[i], rule.id, Tidy(findings[k])) && events[i].created > now - pause)
    {
      TidyMatches(events[i], rule.id, findings[k], now);
    }
    forall j | 0 <= j < k
      ensures Pausing(least)(NewEvent(Some(rule.id), findings[j], now), e)
          <==> pause == 0 || Tidy(findings[j]) != Tidy(findings[k])
    {
    }
  }

  lemma RuleFitsQuiet(events: seq<Event>, rule: Rule, env: Evaluation)
    ensures RuleFits(events, rule, env, Quiet()) <==> RuleCareful(events, rule, env)
  {
    if Outcome(events, rule, env).Some? {
      var findings := Findings(rule, env).value;
      forall k: nat | k < |findings|
        ensures CleanOrFits(events, rule, findings, k, env.now, Quiet())
            <==> FindingCareful(events, rule, findings, k, env.now)
      {
        QuietFits(events, rule, findings, k, env.now);
      }
    }
  }

  lemma RuleFitsPausing(events: seq<Event>, rule: Rule, least: nat -> nat, env: Evaluation)
    ensures RuleFits(events, rule, env, Pausing(least)) <==> RulePatient(events, rule, least(rule.id), env)
  {
    if Outcome(events, rule, env).Some? {
      var findings := Findings(rule, env).value;
      forall k: nat | k < |findings|
        ensures CleanOrFits(events, rule, findings, k, env.now, Pausing(least))
            <==> FindingPatient(events, rule, least(rule.id), findings, k, env.now)
      {
        PausingFits(events, rule, least, findings, k, env.now);
      }
    }
  }

  // Steps --------------------------------------------------------------------------------------------------------

  /** No other event of its subject is active. */
  predicate AloneActive(events: seq<Event>, i: nat)
    requires i < |events|
  {
    forall j :: 0 <= j < |events| && j != i && Active(events[j].status) ==> !SameSubject(events[j], events[i])
  }

  predicate RulesCareful(events: seq<Event>, rules: seq<Rule>, env: Evaluation) {
    forall i: nat :: i < |rules| ==> RuleCareful(events, rules[i], env)
  }

  predicate RulesPatient(events: seq<Event>, rules: seq<Rule>, least: nat -> nat, env: Evaluation) {
    forall i: nat :: i < |rules| ==> RulePatient(events, rules[i], least(rules[i].id), env)
  }

  /** An event is marked as seen only while it is active or alone in its subject; and a rule that goes through reports
      an address that cleaning changes only when neither an active event nor an open finding before it has the cleaned
      one. */
  predicate Careful(w: World, step: Step)
    requires ValidStep(w, step)
  {
    match step
    case Check(rules, env) => RulesCareful(w.events, rules, env)
    case Acknowledge(i) => Active(w.events[i].status) || AloneActive(w.events, i)
    case _ => true
  }

  /** A rule with a pause reports an address that cleaning changes only when neither an event younger than the pause nor
      an open finding before it has the cleaned one. */
  predicate Patient(w: World, step: Step, least: nat -> nat) {
    step.Check? ==> RulesPatient(w.events, step.rules, least, step.env)
  }

  /** Marking one event as seen whatever its status keeps that exactly when it was active, belongs to no rule, or no
      other event of its subject is active. */
  lemma AcknowledgeExactly(w: World, i: nat)
    requires i < |w.events| && Unique(w.events)
    ensures Unique(After(w, Acknowledge(i)).events)
        <==> Active(w.events[i].status) || AloneActive(w.events, i)
  {
    var was, next := w.events, After(w, Acknowledge(i)).events;
    if Unique(next) && !Active(was[i].status) {
      forall j | 0 <= j < |was| && j != i && Active(was[j].status) ensures !SameSubject(was[j], was[i]) {
        assert if i < j then !Clash(next[i], next[j]) else !Clash(next[j], next[i]);
      }
    }
    if Active(was[i].status) || AloneActive(was, i) {
      forall a, b | 0 <= a < b < |next| ensures !Clash(next[a], next[b]) {
        assert !Clash(was[a], was[b]);
      }
    }
  }

  /** Apart from checks no step brings two events of one subject closer or changes when they were raised. */
  lemma OtherStepSpaced(w: World, step: Step, least: nat -> nat)
    requires ValidStep(w, step) && !step.Check? && Spaced(w.events, least)
    ensures Spaced(After(w, step).events, least)
  {
    var next := After(w, step).events;
    forall i, j | 0 <= i < j < |next| ensures Apart(next[i], next[j], least) {
      if j < |w.events| {
        assert Apart(w.events[i], w.events[j], least);
      }
    }
  }

  lemma OtherStepUnique(w: World, step: Step)
    requires ValidStep(w, step) && !step.Check? && !step.Acknowledge? && Unique(w.events)
    ensures Unique(After(w, step).events)
  {
    var next := After(w, step).events;
    forall i, j | 0 <= i < j < |next| ensures !Clash(next[i], next[j]) {
      if j < |w.events| {
        assert !Clash(w.events[i], w.events[j]);
      }
    }
  }

  lemma CheckUnique(w: World, rules: seq<Rule>, env: Evaluation)
    requires DistinctRules(rules) && CleanStore(w.events) && Unique(w.events)
    ensures Unique(Evaluate(w, rules, env).events) <==> RulesCareful(w.events, rules, env)
  {
    EvaluatePairs(w, rules, env, Quiet());
    assert Pairwise(w.events, Quiet());
    assert Unique(Evaluate(w, rules, env).events) <==> Pairwise(Evaluate(w, rules, env).events, Quiet());
    forall i: nat | i < |rules|
      ensures RuleFits(w.events, rules[i], env, Quiet()) <==> RuleCareful(w.events, rules[i], env)
    {
      RuleFitsQuiet(w.events, rules[i], env);
    }
  }

  lemma StepUnique(w: World, step: Step)
    requires ValidStep(w, step) && CleanStore(w.events) && Unique(w.events)
    ensures Unique(After(w, step).events) <==> Careful(w, step)
  {
    match step
    case Check(rules, env) => CheckUnique(w, rules, env);
    case Acknowledge(i) => AcknowledgeExactly(w, i);
    case _ => OtherStepUnique(w, step);
  }

  /** No rule of a check pauses shorter than least. */
  predicate Pauses(step: Step, least: nat -> nat) {
    step.Check? ==> forall i :: 0 <= i < |step.rules| ==> least(step.rules[i].id) <= step.rules[i].pause
  }

  lemma CheckSpaced(w: World, rules: seq<Rule>, env: Evaluation, least: nat -> nat)
    requires DistinctRules(rules) && CleanStore(w.events) && Spaced(w.events, least)
    requires forall i :: 0 <= i < |rules| ==> least(rules[i].id) <= rules[i].pause
    ensures Spaced(Evaluate(w, rules, env).events, least) <==> RulesPatient(w.events, rules, least, env)
  {
    EvaluatePairs(w, rules, env, Pausing(least));
    assert Pairwise(w.events, Pausing(least));
    assert Spaced(Evaluate(w, rules, env).events, least)
        <==> Pairwise(Evaluate(w, rules, env).events, Pausing(least));
    forall i: nat | i < |rules|
      ensures RuleFits(w.events, rules[i], env, Pausing(least))
          <==> RulePatient(w.events, rules[i], least(rules[i].id), env)
    {
      RuleFitsPausing(w.events, rules[i], least, env);
    }
  }

  lemma StepSpaced(w: World, step: Step, least: nat -> nat)
    requires ValidStep(w, step) && Pauses(step, least) && CleanStore(w.events) && Spaced(w.events, least)
    ensures Spaced(After(w, step).events, least) <==> Patient(w, step, least)
  {
    match step
    case Check(rules, env) => CheckSpaced(w, rules, env, least);
    case _ => OtherStepSpaced(w, step, least);
  }

  lemma StepClean(w: World, step: Step)
    requires ValidStep(w, step) && CleanStore(w.events)
    ensures CleanStore(After(w, step).events)
  {
    match step
    case Check(rules, env) => EvaluateClean(w, rules, env);
    case System(f, _, _) => StoredClean(f.source);
    case _ =>
  }

  // Runs -----------------------------------------------------------------------------------------------------------

  predicate IsRun(worlds: seq<World>, steps: seq<Step>) {
    && |worlds| == |steps| + 1 && worlds[0] == World([], [], map[])
    && forall k: nat :: k < |steps| ==> StepsAt(worlds, steps, k)
  }

  predicate StepsAt(worlds: seq<World>, steps: seq<Step>, k: nat)
    requires |worlds| == |steps| + 1 && k < |steps|
  {
    ValidStep(worlds[k], steps[k]) && worlds[k + 1] == After(worlds[k], steps[k])
  }

  /** In every reachable state the stored addresses are clean. */
  lemma {:induction false} RunClean(worlds: seq<World>, steps: seq<Step>, n: nat)
    requires IsRun(worlds, steps) && n <= |steps|
    ensures CleanStore(worlds[n].events)
  {
    if n > 0 {
      RunClean(worlds, steps, n - 1);
      assert StepsAt(worlds, steps, n - 1);
      StepClean(worlds[n - 1], steps[n - 1]);
    }
  }

  predicate CarefulAt(worlds: seq<World>, steps: seq<Step>, k: nat)
    requires |worlds| == |steps| + 1 && k < |steps|
  {
    ValidStep(worlds[k], steps[k]) && Careful(worlds[k], steps[k])
  }

  predicate UniqueAt(worlds: seq<World>, k: nat)
    requires k < |worlds|
  {
    Unique(worlds[k].events)
  }

  lemma UniqueStepAt(worlds: seq<World>, steps: seq<Step>, k: nat)
    requires IsRun(worlds, steps) && k < |steps| && UniqueAt(worlds, k)
    ensures UniqueAt(worlds, k + 1) <==> CarefulAt(worlds, steps, k)
  {
    RunClean(worlds, steps, k);
    assert StepsAt(worlds, steps, k);
    StepUnique(worlds[k], steps[k]);
  }

  /** A run has at most one active event per rule, domain and address all the way exactly when each of its steps so far
      was careful. */
  lemma {:induction false} RunUnique(worlds: seq<World>, steps: seq<Step>, n: nat)
    requires IsRun(worlds, steps) && n <= |steps|
    ensures (forall k: nat :: k <= n ==> UniqueAt(worlds, k))
        <==> (forall k: nat :: k < n ==> CarefulAt(worlds, steps, k))
  {
    if n == 0 {
      assert UniqueAt(worlds, 0);
    } else {
      RunUnique(worlds, steps, n - 1);
      if UniqueAt(worlds, n - 1) {
        UniqueStepAt(worlds, steps, n - 1);
      }
    }
  }

  predicate PatientAt(worlds: seq<World>, steps: seq<Step>, least: nat -> nat, k: nat)
    requires |worlds| == |steps| + 1 && k < |steps|
  {
    Patient(worlds[k], steps[k], least)
  }

  predicate SpacedAt(worlds: seq<World>, least: nat -> nat, k: nat)
    requires k < |worlds|
  {
    Spaced(worlds[k].events, least)
  }

  predicate AllPause(steps: seq<Step>, least: nat -> nat) {
    forall k :: 0 <= k < |steps| ==> Pauses(steps[k], least)
  }

  lemma SpacedStepAt(worlds: seq<World>, steps: seq<Step>, least: nat -> nat, k: nat)
    requires IsRun(worlds, steps) && k < |steps| && AllPause(steps, least) && SpacedAt(worlds, least, k)
    ensures SpacedAt(worlds, least, k + 1) <==> PatientAt(worlds, steps, least, k)
  {
    RunClean(worlds, steps, k);
    assert StepsAt(worlds, steps, k);
    StepSpaced(worlds[k], steps[k], least);
  }

  /** Two events of one subject are at least the pause apart all along a run, whichever way the clock went, exactly when
      each check so far was patient with the addresses cleaning changes. */
  lemma {:induction false} RunSpaced(worlds: seq<World>, steps: seq<Step>, least: nat -> nat, n: nat)
    requires IsRun(worlds, steps) && n <= |steps| && AllPause(steps, least)
    ensures (forall k: nat :: k <= n ==> SpacedAt(worlds, least, k))
        <==> (forall k: nat :: k < n ==> PatientAt(worlds, steps, least, k))
  {
    if n == 0 {
      assert SpacedAt(worlds, least, 0);
    } else {
      RunSpaced(worlds, steps, least, n - 1);
      if SpacedAt(worlds, least, n - 1) {
        SpacedStepAt(worlds, steps, least, n - 1);
      }
    }
  }

  /** The addresses a check reports are addresses as they are stored. */
  ghost predicate CleanChecks(env: Evaluation) {
    forall rule, domain :: env.check(rule, domain).Some? ==> AllCanonical(env.check(rule, domain).value)
  }

  lemma {:induction false} InDomainsClean(rule: nat, domains: seq<nat>, env: Evaluation)
    requires CleanChecks(env) && InDomains(rule, domains, env.check).Some?
    ensures AllCanonical(InDomains(rule, domains, env.check).value)
  {
    if domains != [] {
      InDomainsClean(rule, domains[1..], env);
      assert env.check(rule, Some(domains[0])).Some?;
    }
  }

  lemma FindingsClean(rule: Rule, env: Evaluation)
    requires CleanChecks(env) && Findings(rule, env).Some?
    ensures AllCanonical(Findings(rule, env).value)
  {
    if !(rule.domain.Some? || !rule.perDomain) {
      InDomainsClean(rule.id, env.setup.domains, env);
    }
  }

  /** Checks that report clean addresses are careful and patient, whatever there is. */
  lemma CleanIsFine(w: World, rules: seq<Rule>, env: Evaluation, least: nat -> nat)
    requires CleanChecks(env) && DistinctRules(rules)
    ensures Careful(w, Check(rules, env)) && Patient(w, Check(rules, env), least)
  {
    forall i: nat | i < |rules|
      ensures RuleCareful(w.events, rules[i], env) && RulePatient(w.events, rules[i], least(rules[i].id), env)
    {
      if Outcome(w.events, rules[i], env).Some? {
        FindingsClean(rules[i], env);
      }
    }
  }

  // Runs with two active events of one subject --------------------------------------------------------------------

  /** Raise, close, raise again, and mark the closed event as seen. */
  lemma SeenAgain() returns (worlds: seq<World>, steps: seq<Step>)
    ensures IsRun(worlds, steps) && !Unique(worlds[|steps|].events)
    ensures forall k :: 0 <= k < |steps| && steps[k].Check? ==> CleanChecks(steps[k].env)
  {
    var rule := Rule(0, true, true, None, false, 0, None);
    var f := Finding(None, None);
    var env := Reporting(f, 0);
    steps := [Check([rule], env), Resolve(0), Check([rule], env), Acknowledge(0)];
    worlds := SeenAgainWith(rule, f, env, steps);
  }

  /** Every check reports this one finding, and nothing breaks. */
  function Reporting(f: Finding, now: int): Evaluation {
    Evaluation(now, Setup([], [], _ => []), (_, _) => Some([f]), _ => None)
  }

  predicate ReportsOne(rule: Rule, f: Finding, env: Evaluation) {
    && rule.active && rule.known && rule.domain == None && !rule.perDomain
    && env.check(rule.id, None) == Some([f]) && env.breaks(rule.id) == None
  }

  lemma SeenAgainWith(rule: Rule, f: Finding, env: Evaluation, steps: seq<Step>) returns (worlds: seq<World>)
    requires ReportsOne(rule, f, env) && rule.pause == 0
    requires steps == [Check([rule], env), Resolve(0), Check([rule], env), Acknowledge(0)]
    ensures IsRun(worlds, steps) && !Unique(worlds[|steps|].events)
  {
    var w0 := World([], [], map[]);
    var w1 := RaisesOne(w0, rule, f, env);
    var w2 := After(w1, Resolve(0));
    NotActive(w2.events, rule, f, env.now);
    var w3 := RaisesOne(w2, rule, f, env);
    var w4 := After(w3, Acknowledge(0));
    worlds := [w0, w1, w2, w3, w4];
    assert Goes(w1, Resolve(0), w2) && Goes(w3, Acknowledge(0), w4);
    forall k: nat | k < |steps| ensures StepsAt(worlds, steps, k) {
      assert Goes(worlds[k], steps[k], worlds[k + 1]);
    }
    assert Clash(w4.events[0], w4.events[1]);
  }

  predicate Goes(w: World, step: Step, next: World) {
    ValidStep(w, step) && next == After(w, step)
  }

  lemma NotActive(events: seq<Event>, rule: Rule, f: Finding, now: int)
    requires rule.pause == 0 && forall i :: 0 <= i < |events| ==> !Active(events[i].status)
    ensures !Blocked(events, rule, f, now)
  {
  }

  lemma RaisesOne(w: World, rule: Rule, f: Finding, env: Evaluation) returns (next: World)
    requires ReportsOne(rule, f, env)
    requires !Blocked(w.events, rule, f, env.now)
    ensures Goes(w, Check([rule], env), next) && next.events == w.events + [NewEvent(Some(rule.id), f, env.now)]
  {
    next := After(w, Check([rule], env));
    assert [rule][..0] == [] && Evaluate(w, [], env) == w;
    assert next == EvaluateRule(w, rule, env);
    assert Raised(w.events, rule, [f], env.now, None)
        == Raised(w.events + [NewEvent(Some(rule.id), f, env.now)], rule, [], env.now, None) by {
      assert [f][1..] == [];
    }
  }

  /** For every address that cleaning changes and every pause: two checks one tick apart that report it leave two active
      events of one subject, closer than the pause. */
  lemma RaisedTwice(f: Finding, pause: nat) returns (worlds: seq<World>, steps: seq<Step>)
    requires !Canonical(f) && pause > 1
    ensures IsRun(worlds, steps) && forall k :: 0 <= k < |steps| ==> steps[k].Check? && Pauses(steps[k], _ => pause)
    ensures !Unique(worlds[|steps|].events) && !Spaced(worlds[|steps|].events, _ => pause)
  {
    var rule := Rule(0, true, true, None, false, pause, None);
    var first, second := Reporting(f, 0), Reporting(f, 1);
    var w0 := World([], [], map[]);
    var w1 := RaisesOne(w0, rule, f, first);
    StoredClean(f.source);
    UncleanOpen(w1.events, rule, f, 1);
    var w2 := RaisesOne(w1, rule, f, second);
    steps := [Check([rule], first), Check([rule], second)];
    worlds := [w0, w1, w2];
    forall k: nat | k < |steps| ensures StepsAt(worlds, steps, k) {
      assert Goes(worlds[k], steps[k], worlds[k + 1]);
    }
    assert Clash(w2.events[0], w2.events[1]) && !Apart(w2.events[0], w2.events[1], _ => pause);
  }

  /** An address that ends in a delete character, and one of 46 characters, are such. */
  lemma UncleanAddresses() returns (deleted: Finding, long: Finding)
    ensures deleted.source == Some("192.0.2.1" + [0x7F as char]) && !Canonical(deleted)
    ensures long.source.Some? && |long.source.value| == 46 && Text.NoControls(long.source.value) && !Canonical(long)
  {
    deleted := Finding(None, Some("192.0.2.1" + [0x7F as char]));
    assert Text.IsControl(deleted.source.value[|"192.0.2.1"|]);
    long := Finding(None, Some(seq(46, _ => ':')));
  }
}
