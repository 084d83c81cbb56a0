/** The objects the program updates when it classifies sources. */
module ClassificationStore {
  import opened Wrappers
  import opened Classification

  class SourceIp {
    const organization: nat
    const address: string
    var passCount: int
    var class_: Class
    var origin: Origin
    var reason: Reason
    var sender: Option<string>
    var evidence: Evidence

    constructor (organization: nat, address: string, passCount: int)
      ensures Value() == Source(organization, address, passCount, Unknown, NoOrigin, NoReason, None,
                                Evidence("", "", "", ""))
    {
      this.organization, this.address, this.passCount := organization, address, passCount;
      class_, origin, reason, sender := Unknown, NoOrigin, NoReason, None;
      evidence := Evidence("", "", "", "");
    }

    function Value(): Source
      reads this
    {
      Source(organization, address, passCount, class_, origin, reason, sender, evidence)
    }

    method ApplyDecision(decision: Option<Class>, name: string) returns (changed: bool)
      modifies this`class_, this`origin, this`reason
      ensures Value() == Classification.ApplyDecision(old(Value()), decision, name)
      ensures changed <==> Value() != old(Value())
    {
      if origin == Manual {
        return false;
      }
      if decision.None? {
        if origin != BySender {
          return false;
        }
        class_, origin, reason := Unknown, NoOrigin, NoReason;
        return true;
      }
      var wanted := SenderDecision(decision.value, name);
      if class_ == decision.value && origin == BySender && reason == wanted {
        return false;
      }
      class_, origin, reason := decision.value, BySender, wanted;
      return true;
    }

    method ApplyRules(rules: Rules) returns (changed: bool)
      modifies this`class_, this`origin, this`reason
      ensures Value() == Classification.ApplyRules(old(Value()), rules)
      ensures changed <==> Value() != old(Value())
    {
      changed := TakeMatch(Match(passCount, evidence, rules), rules.class_);
    }

    method TakeMatch(found: Option<Reason>, wanted: Class) returns (changed: bool)
      modifies this`class_, this`origin, this`reason
      ensures Value() == ApplyMatch(old(Value()), found, wanted)
      ensures changed <==> Value() != old(Value())
    {
      if origin == Manual || origin == BySender {
        return false;
      }
      if class_ != Unknown && origin != ByRule {
        return false;
      }
      if found.None? {
        if origin != ByRule {
          return false;
        }
        class_, origin, reason := Unknown, NoOrigin, NoReason;
        return true;
      }
      if class_ == wanted && origin == ByRule && reason == found.value {
        return false;
      }
      class_, origin, reason := wanted, ByRule, found.value;
      return true;
    }

    method Settle(decision: Option<Class>, name: string, rules: Rules) returns (changed: bool)
      modifies this`class_, this`origin, this`reason
      ensures Value() == Classification.Settle(old(Value()), decision, name, rules)
      ensures changed <==> Classification.ApplyDecision(old(Value()), decision, name) != old(Value())
    {
      changed := ApplyDecision(decision, name);
      var _ := ApplyRules(rules);
    }
  }

  /** Where two lists differ below n. */
  ghost function Differing(a: seq<Source>, b: seq<Source>, n: nat): set<nat>
    requires n <= |a| == |b|
  {
    set i: nat | i < n && a[i] != b[i]
  }

  ghost function Changes(a: seq<Source>, b: seq<Source>): nat
    requires |a| == |b|
  {
    |Differing(a, b, |a|)|
  }

  lemma DifferingNext(a: seq<Source>, b: seq<Source>, n: nat)
    requires n < |a| == |b|
    ensures |Differing(a, b, n + 1)| == |Differing(a, b, n)| + if a[n] != b[n] then 1 else 0
  {
    assert Differing(a, b, n + 1) == Differing(a, b, n) + if a[n] != b[n] then {n} else {};
  }

  /** What apply_decision alone makes of the sources of a sender. */
  function DecisionsOnly(sources: seq<Source>, organization: nat, sender: string, decision: Option<Class>,
                         names: Names): (after: seq<Source>)
    ensures |after| == |sources|
  {
    seq(|sources|, i requires 0 <= i < |sources| =>
      TakenBy(sources[i], organization, sender, decision, names(sender)))
  }

  function TakenBy(s: Source, organization: nat, sender: string, decision: Option<Class>, name: string): Source {
    if IsOf(s, organization, sender) then Classification.ApplyDecision(s, decision, name) else s
  }

  lemma NextDone(before: seq<Source>, wanted: seq<Source>, i: nat)
    requires i < |before| == |wanted|
    ensures (wanted[..i] + before[i..])[i] == before[i]
    ensures (wanted[..i] + before[i..])[i := wanted[i]] == wanted[..i + 1] + before[i + 1..]
  {
  }

  class Registry {
    var sources: seq<SourceIp>
    var approvals: Approvals
    var applied: Option<Rules>   // what the latest unscoped pass went by

    ghost predicate Valid()
      reads this`sources
    {
      forall i, j :: 0 <= i < j < |sources| ==> sources[i] != sources[j]
    }

    function Values(): (values: seq<Source>)
      reads this`sources, sources
      ensures |values| == |sources|
    {
      var all := sources;
      seq(|all|, i requires 0 <= i < |all| reads all => all[i].Value())
    }

    function Data(): World
      reads this, sources
    {
      World(Values(), approvals)
    }

    constructor ()
      ensures Valid() && Data() == World([], map[]) && applied == None
    {
      sources, approvals, applied := [], map[], None;
    }

    method Find(organization: nat, address: string) returns (i: nat)
      ensures i == FirstOf(Values(), organization, address)
    {
      ghost var before := Values();
      i := 0;
      while i < |sources| && !(sources[i].organization == organization && sources[i].address == address)
        invariant i <= |sources|
        invariant FirstOf(before, organization, address) == i + FirstOf(before[i..], organization, address)
      {
        assert before[i..][1..] == before[i + 1..];
        i := i + 1;
      }
    }

    method Import(organization: nat, address: string, count: int, passed: bool, names: Names, rules: Rules)
      requires Valid()
      modifies this`sources, sources
      ensures Valid()
      ensures Data() == After(old(Data()), Step.Import(organization, address, count, passed), names, rules)
    {
      ghost var before := Values();
      var i := Find(organization, address);
      if i == |sources| {
        var source := new SourceIp(organization, address, if passed then count else 0);
        sources := sources + [source];
        assert Values() == before + [source.Value()];
      } else {
        if passed {
          sources[i].passCount := sources[i].passCount + count;
        }
        assert Values() == before[i := sources[i].Value()];
      }
    }

    /** One source of the loop over the sources of a sender. */
    method DecideAt(i: nat, organization: nat, sender: string, decision: Option<Class>, name: string, rules: Rules)
      returns (changed: bool)
      requires Valid() && i < |sources|
      modifies sources[i]
      ensures unchanged(this)
      ensures Values() == old(Values())[i := DecidedOn(old(Values())[i], organization, sender, decision, name, rules)]
      ensures changed <==> TakenBy(old(Values())[i], organization, sender, decision, name) != old(Values())[i]
    {
      ghost var before := Values();
      var source := sources[i];
      changed := false;
      if source.organization == organization && source.sender == Some(sender) {
        changed := source.Settle(decision, name, rules);
      }
      assert Values() == before[i := source.Value()];
    }

    method DecideNext(i: nat, organization: nat, sender: string, decision: Option<Class>, name: string, rules: Rules,
                      ghost before: seq<Source>, ghost wanted: seq<Source>)
      returns (changed: bool)
      requires Valid() && i < |before| == |wanted| == |sources|
      requires Values() == wanted[..i] + before[i..]
      requires wanted[i] == DecidedOn(before[i], organization, sender, decision, name, rules)
      modifies sources[i]
      ensures unchanged(this) && Values() == wanted[..i + 1] + before[i + 1..]
      ensures changed <==> TakenBy(before[i], organization, sender, decision, name) != before[i]
    {
      NextDone(before, wanted, i);
      changed := DecideAt(i, organization, sender, decision, name, rules);
    }

    method PassNext(i: nat, scope: Option<nat>, rules: Rules, ghost before: seq<Source>, ghost wanted: seq<Source>)
      returns (changed: bool)
      requires Valid() && i < |before| == |wanted| == |sources|
      requires Values() == wanted[..i] + before[i..] && wanted[i] == Passed(before[i], scope, rules)
      modifies sources[i]
      ensures unchanged(this) && Values() == wanted[..i + 1] + before[i + 1..]
      ensures changed <==> wanted[i] != before[i]
    {
      NextDone(before, wanted, i);
      changed := PassAt(i, scope, rules);
    }

    method PassAt(i: nat, scope: Option<nat>, rules: Rules) returns (changed: bool)
      requires Valid() && i < |sources|
      modifies sources[i]
      ensures unchanged(this)
      ensures Values() == old(Values())[i := Passed(old(Values())[i], scope, rules)]
      ensures changed <==> Passed(old(Values())[i], scope, rules) != old(Values())[i]
    {
      ghost var before := Values();
      var source := sources[i];
      changed := false;
      if InPass(source.Value(), scope) {
        changed := source.ApplyRules(rules);
      }
      assert Values() == before[i := source.Value()];
    }

    method Decide(organization: nat, sender: string, decision: Option<Class>, names: Names, rules: Rules)
      returns (changed: nat)
      requires Valid() && decision != Some(Unknown)
      modifies this`approvals, set source | source in sources
      ensures Valid()
      ensures Data() == After(old(Data()), Step.Decide(organization, sender, decision), names, rules)
      ensures changed == Changes(old(Values()), DecisionsOnly(old(Values()), organization, sender, decision, names))
    {
      if decision.None? {
        approvals := approvals - {(organization, sender)};
      } else {
        approvals := approvals[(organization, sender) := decision.value];
      }
      changed := DecideSources(organization, sender, decision, names, rules);
    }

    method DecideSources(organization: nat, sender: string, decision: Option<Class>, names: Names, rules: Rules)
      returns (changed: nat)
      requires Valid()
      modifies set source | source in sources
      ensures Values() == AfterDecide(old(Values()), organization, sender, decision, names, rules)
      ensures changed == Changes(old(Values()), DecisionsOnly(old(Values()), organization, sender, decision, names))
    {
      ghost var before := Values();
      ghost var taken := DecisionsOnly(before, organization, sender, decision, names);
      ghost var wanted := AfterDecide(before, organization, sender, decision, names, rules);
      ghost var all := sources;
      changed := 0;
      for i := 0 to |sources|
        invariant sources == all
        invariant Values() == wanted[..i] + before[i..]
        invariant changed == |Differing(before, taken, i)|
      {
        assert wanted[i] == DecidedOn(before[i], organization, sender, decision, names(sender), rules);
        DifferingNext(before, taken, i);
        var moved := DecideNext(i, organization, sender, decision, names(sender), rules, before, wanted);
        changed := changed + if moved then 1 else 0;
      }
    }

    method ClassifyManually(i: nat, class_: Class, names: Names, rules: Rules)
      requires Valid() && i < |sources|
      modifies sources[i]
      ensures Valid()
      ensures Data() == After(old(Data()), Classify(i, class_), names, rules)
    {
      ghost var before := Values();
      var source := sources[i];
      if class_ == Unknown {
        source.class_, source.origin, source.reason := Unknown, NoOrigin, NoReason;
        if source.sender.Some? {
          var _ := source.ApplyDecision(DecisionOn(source.Value(), approvals), names(source.sender.value));
        }
        var _ := source.ApplyRules(rules);
      } else {
        source.class_, source.origin, source.reason := class_, Manual, NoReason;
      }
      assert Values() == before[i := source.Value()];
    }

    method IdentifySource(i: nat, found: Option<string>, evidence: Evidence, names: Names, rules: Rules)
      requires Valid() && i < |sources|
      modifies sources[i]
      ensures Valid()
      ensures Data() == After(old(Data()), Identify(i, found, evidence), names, rules)
    {
      ghost var before := Values();
      var source := sources[i];
      source.evidence, source.sender := evidence, found;
      var _ := source.ApplyDecision(DecisionOn(source.Value(), approvals), NameOf(source.Value(), names));
      var _ := source.ApplyRules(rules);
      assert Values() == before[i := source.Value()];
    }

    /** A full pass is left out when the settings are those of the last one. */
    method ApplyRulesAll(scope: Option<nat>, force: bool, names: Names, rules: Rules) returns (changed: nat)
      requires Valid()
      modifies this`applied, set source | source in sources
      ensures Valid()
      ensures var idle := !force && scope.None? && old(applied) == Some(rules);
              && Data() == (if idle then old(Data()) else After(old(Data()), RulePass(scope), names, rules))
              && changed == Changes(old(Values()), Values())
              && applied == if scope.None? then Some(rules) else old(applied)
    {
      changed := 0;
      if !force && scope.None? && applied == Some(rules) {
        assert Differing(Values(), Values(), |sources|) == {};
        return;
      }
      changed := PassSources(scope, rules);
      if scope.None? {
        applied := Some(rules);
      }
    }

    method PassSources(scope: Option<nat>, rules: Rules) returns (changed: nat)
      requires Valid()
      modifies set source | source in sources
      ensures Values() == AfterPass(old(Values()), scope, rules)
      ensures changed == Changes(old(Values()), Values())
    {
      ghost var before, all := Values(), sources;
      ghost var wanted := AfterPass(before, scope, rules);
      changed := 0;
      for i := 0 to |sources|
        invariant sources == all
        invariant Values() == wanted[..i] + before[i..]
        invariant changed == |Differing(before, wanted, i)|
      {
        assert wanted[i] == Passed(before[i], scope, rules);
        DifferingNext(before, wanted, i);
        var moved := PassNext(i, scope, rules, before, wanted);
        changed := changed + if moved then 1 else 0;
      }
    }
  }
}
