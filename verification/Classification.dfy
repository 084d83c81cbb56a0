/** Classifying source addresses: a person, a decision about the sending service, and the source rules write the
    same fields. All of it on values; ClassificationStore holds the objects the program updates. */
module Classification {
  import opened Text
  import opened Wrappers

  datatype Class = Unknown | Trusted | Suspicious | Ignored
  datatype Origin = NoOrigin | Manual | BySender | ByRule

  datatype Reason =
    | NoReason
    | SenderDecision(class_: Class, name: string)
    | RuleNetwork(asn: string, operator: string)
    | RuleCountry(country: string)
    | RuleHost(host: string, pattern: string)

  /** What the lookups of an address found; empty texts stand for nothing found. */
  datatype Evidence = Evidence(host: string, asn: string, operator: string, country: string)

  datatype Source = Source(
    organization: nat, address: string, passCount: int, class_: Class, origin: Origin, reason: Reason,
    sender: Option<string>, evidence: Evidence)

  datatype Rules = Rules(enabled: bool, class_: Class, maxPassed: int, asns: set<string>, countries: set<string>,
                         patterns: seq<string>)

  /** Settings refuse a rule classification of unknown or trusted. */
  predicate ValidRules(rules: Rules) {
    rules.class_ == Suspicious || rules.class_ == Ignored
  }

  // The rules ----------------------------------------------------------------------------------------

  function TrimDots(s: string): string {
    if s != "" && s[0] == '.' then TrimDots(s[1..])
    else if s != "" && s[|s| - 1] == '.' then TrimDots(s[..|s| - 1])
    else s
  }

  predicate IsTokenChar(c: char) { 'a' <= c <= 'z' || '0' <= c <= '9' }

  function Run(s: string, token: bool): (n: nat)
    ensures n <= |s|
    ensures s != "" && IsTokenChar(s[0]) == token ==> n > 0
    ensures n < |s| ==> IsTokenChar(s[n]) != token
  {
    if s == "" || IsTokenChar(s[0]) != token then 0 else 1 + Run(s[1..], token)
  }

  /** The pieces between runs of other characters; the outer ones may be empty. */
  function Tokens(s: string): seq<string>
    decreases |s|
  {
    var n := Run(s, true);
    if n == |s| then [s] else [s[..n]] + Tokens(s[n + Run(s[n..], false)..])
  }

  predicate HostMatches(host: string, pattern: string) {
    if '.' in pattern then host == pattern || EndsWith(host, "." + pattern) else pattern in Tokens(host)
  }

  function FirstPattern(host: string, patterns: seq<string>): Option<string> {
    if patterns == [] then None
    else if HostMatches(host, patterns[0]) then Some(patterns[0])
    else FirstPattern(host, patterns[1..])
  }

  function Asn(evidence: Evidence): string {
    var asn := Upper(Strip(evidence.asn));
    if StartsWith(asn, "AS") then asn[2..] else asn
  }

  /** Why a rule applies, if one does, to an address with so many passed messages and this evidence. */
  function Match(passCount: int, evidence: Evidence, rules: Rules): Option<Reason> {
    if !rules.enabled || passCount > rules.maxPassed then None
    else
      var asn, country := Asn(evidence), Upper(Strip(evidence.country));
      var host := Lower(TrimDots(Strip(evidence.host)));
      if asn != "" && asn in rules.asns then Some(RuleNetwork(asn, evidence.operator))
      else if country != "" && country in rules.countries then Some(RuleCountry(country))
      else if host != "" && FirstPattern(host, rules.patterns).Some? then
        Some(RuleHost(host, FirstPattern(host, rules.patterns).value))
      else None
  }

  // The three authorities -------------------------------------------------------------------------------

  function Classified(s: Source, class_: Class, origin: Origin, reason: Reason): Source {
    s.(class_ := class_, origin := origin, reason := reason)
  }

  /** The fields after a decision is made known: without one, only what a decision wrote is taken back. */
  function ApplyDecision(s: Source, decision: Option<Class>, name: string): Source {
    if s.origin == Manual then s
    else
      match decision
      case None => if s.origin != BySender then s else Classified(s, Unknown, NoOrigin, NoReason)
      case Some(class_) => Classified(s, class_, BySender, SenderDecision(class_, name))
  }

  /** Only an unclassified source, or one a rule classified, changes: to what was found, or back to unclassified. */
  function ApplyMatch(s: Source, found: Option<Reason>, class_: Class): Source {
    if s.origin == Manual || s.origin == BySender then s
    else if s.class_ != Unknown && s.origin != ByRule then s
    else
      match found
      case None => if s.origin != ByRule then s else Classified(s, Unknown, NoOrigin, NoReason)
      case Some(reason) => Classified(s, class_, ByRule, reason)
  }

  function ApplyRules(s: Source, rules: Rules): Source {
    ApplyMatch(s, Match(s.passCount, s.evidence, rules), rules.class_)
  }

  function Settle(s: Source, decision: Option<Class>, name: string, rules: Rules): Source {
    ApplyRules(ApplyDecision(s, decision, name), rules)
  }

  // What they amount to ------------------------------------------------------------------------------------

  /** The classification as a function of the manual choice, the decision on the sender and the rules alone. */
  function Normal(s: Source, decision: Option<Class>, name: string, rules: Rules): Source {
    NormalWith(s, decision, name, Match(s.passCount, s.evidence, rules), rules.class_)
  }

  function NormalWith(s: Source, decision: Option<Class>, name: string, found: Option<Reason>, class_: Class): Source {
    if s.origin == Manual then s
    else if decision.Some? then Classified(s, decision.value, BySender, SenderDecision(decision.value, name))
    else if found.Some? then Classified(s, class_, ByRule, found.value)
    else Classified(s, Unknown, NoOrigin, NoReason)
  }

  /** Unknown exactly when nobody classified the source. */
  predicate Coherent(s: Source) {
    && (s.class_ == Unknown <==> s.origin == NoOrigin)
    && (s.origin == NoOrigin || s.origin == Manual ==> s.reason == NoReason)
  }

  /** Whatever led to the present fields, applying the decision and the rules gives the normal form. */
  lemma SettleIsNormal(s: Source, decision: Option<Class>, name: string, rules: Rules)
    requires Coherent(s)
    ensures Settle(s, decision, name, rules) == Normal(s, decision, name, rules)
  {
    SettleWith(s, decision, name, Match(s.passCount, s.evidence, rules), rules.class_);
  }

  lemma SettleWith(s: Source, decision: Option<Class>, name: string, found: Option<Reason>, class_: Class)
    requires Coherent(s)
    ensures ApplyMatch(ApplyDecision(s, decision, name), found, class_) == NormalWith(s, decision, name, found, class_)
    ensures ApplyDecision(s, decision, name).passCount == s.passCount
    ensures ApplyDecision(s, decision, name).evidence == s.evidence
  {
  }

  lemma NormalCoherent(s: Source, decision: Option<Class>, name: string, rules: Rules)
    requires Coherent(s) && ValidRules(rules) && decision != Some(Unknown)
    ensures Coherent(Normal(s, decision, name, rules))
  {
  }

  // The organisation's data ------------------------------------------------------------------------------------

  type Approvals = map<(nat, string), Class>

  datatype World = World(sources: seq<Source>, approvals: Approvals)

  function DecisionOn(s: Source, approvals: Approvals): Option<Class> {
    if s.sender.Some? && (s.organization, s.sender.value) in approvals
    then Some(approvals[(s.organization, s.sender.value)])
    else None
  }

  /** Name the catalog gives a sender. */
  type Names = string -> string

  function NameOf(s: Source, names: Names): string {
    if s.sender.Some? then names(s.sender.value) else ""
  }

  function NormalIn(s: Source, approvals: Approvals, names: Names, rules: Rules): Source {
    Normal(s, DecisionOn(s, approvals), NameOf(s, names), rules)
  }

  datatype Step =
    | Import(organization: nat, address: string, count: int, passed: bool)
    | Decide(organization: nat, sender: string, decision: Option<Class>)   // None takes the decision back
    | Classify(index: nat, class_: Class)                                    // by a person
    | Identify(index: nat, found: Option<string>, evidence: Evidence)
    | RulePass(scope: Option<nat>)

  predicate ValidStep(w: World, step: Step) {
    match step
    case Decide(_, _, decision) => decision != Some(Unknown)
    case Classify(i, _) => i < |w.sources|
    case Identify(i, _, _) => i < |w.sources|
    case _ => true
  }

  function FirstOf(sources: seq<Source>, organization: nat, address: string): (i: nat)
    ensures i <= |sources|
    ensures i < |sources| ==> sources[i].organization == organization && sources[i].address == address
  {
    if sources == [] || (sources[0].organization == organization && sources[0].address == address) then 0
    else 1 + FirstOf(sources[1..], organization, address)
  }

  function AfterImport(sources: seq<Source>, organization: nat, address: string, count: int, passed: bool): seq<Source>
  {
    var i := FirstOf(sources, organization, address);
    var gained := if passed then count else 0;
    if i == |sources| then
      sources + [Source(organization, address, gained, Unknown, NoOrigin, NoReason, None, Evidence("", "", "", ""))]
    else sources[i := sources[i].(passCount := sources[i].passCount + gained)]
  }

  function Decided(approvals: Approvals, organization: nat, sender: string, decision: Option<Class>): Approvals {
    match decision
    case None => approvals - {(organization, sender)}
    case Some(class_) => approvals[(organization, sender) := class_]
  }

  predicate IsOf(s: Source, organization: nat, sender: string) {
    s.organization == organization && s.sender == Some(sender)
  }

  function AfterDecide(sources: seq<Source>, organization: nat, sender: string, decision: Option<Class>, names: Names,
                       rules: Rules): (after: seq<Source>)
    ensures |after| == |sources|
  {
    seq(|sources|, i requires 0 <= i < |sources| =>
      DecidedOn(sources[i], organization, sender, decision, names(sender), rules))
  }

  function DecidedOn(s: Source, organization: nat, sender: string, decision: Option<Class>, name: string,
                     rules: Rules): Source
  {
    if IsOf(s, organization, sender) then Settle(s, decision, name, rules) else s
  }

  function AfterClassify(s: Source, class_: Class, approvals: Approvals, names: Names, rules: Rules): Source {
    if class_ != Unknown then Classified(s, class_, Manual, NoReason)
    else
      var open := Classified(s, Unknown, NoOrigin, NoReason);
      var taken := if s.sender.Some? then ApplyDecision(open, DecisionOn(s, approvals), NameOf(s, names)) else open;
      ApplyRules(taken, rules)
  }

  function AfterIdentify(s: Source, sender: Option<string>, evidence: Evidence, approvals: Approvals, names: Names,
                         rules: Rules): Source
  {
    var named := s.(sender := sender, evidence := evidence);
    Settle(named, DecisionOn(named, approvals), NameOf(named, names), rules)
  }

  predicate InPass(s: Source, organization: Option<nat>) {
    && (s.class_ == Unknown || s.origin == ByRule)
    && (organization.Some? ==> s.organization == organization.value)
  }

  function AfterPass(sources: seq<Source>, organization: Option<nat>, rules: Rules): (after: seq<Source>)
    ensures |after| == |sources|
  {
    seq(|sources|, i requires 0 <= i < |sources| => Passed(sources[i], organization, rules))
  }

  function Passed(s: Source, organization: Option<nat>, rules: Rules): Source {
    if InPass(s, organization) then ApplyRules(s, rules) else s
  }

  function After(w: World, step: Step, names: Names, rules: Rules): World
    requires ValidStep(w, step)
  {
    match step
    case Import(organization, address, count, passed) =>
      w.(sources := AfterImport(w.sources, organization, address, count, passed))
    case Decide(organization, sender, decision) =>
      World(AfterDecide(w.sources, organization, sender, decision, names, rules),
            Decided(w.approvals, organization, sender, decision))
    case Classify(i, class_) =>
      w.(sources := w.sources[i := AfterClassify(w.sources[i], class_, w.approvals, names, rules)])
    case Identify(i, sender, evidence) =>
      w.(sources := w.sources[i := AfterIdentify(w.sources[i], sender, evidence, w.approvals, names, rules)])
    case RulePass(organization) => w.(sources := AfterPass(w.sources, organization, rules))
  }

  // What every run keeps ------------------------------------------------------------------------------------------

  /** Whether the catalog ever gave a sender a name. */
  type Known = (string, string) -> bool

  /** A source no person decided about carries its sender's decision exactly when there is one, with a name the catalog
      gave the sender when the decision was applied. */
  predicate Carries(s: Source, approvals: Approvals, known: Known) {
    s.origin != Manual ==>
      match DecisionOn(s, approvals)
      case Some(class_) =>
        && s.origin == BySender && s.class_ == class_
        && s.reason.SenderDecision? && s.reason.class_ == class_ && known(s.sender.value, s.reason.name)
      case None => s.origin != BySender
  }

  predicate Sound(s: Source, approvals: Approvals, known: Known) {
    Coherent(s) && Carries(s, approvals, known)
  }

  predicate SoundWorld(w: World, known: Known) {
    && (forall key :: key in w.approvals ==> w.approvals[key] != Unknown)
    && (forall i :: 0 <= i < |w.sources| ==> Sound(w.sources[i], w.approvals, known))
  }

  ghost predicate Knows(known: Known, names: Names) {
    forall sender :: known(sender, names(sender))
  }

  lemma NormalSound(s: Source, approvals: Approvals, names: Names, known: Known, rules: Rules)
    requires Coherent(s) && ValidRules(rules) && Knows(known, names)
    requires forall key :: key in approvals ==> approvals[key] != Unknown
    ensures Sound(NormalIn(s, approvals, names, rules), approvals, known)
  {
    NormalCoherent(s, DecisionOn(s, approvals), NameOf(s, names), rules);
  }

  /** Each source a step touches ends in its normal form under the approvals after the step. */
  lemma DecideIsNormal(w: World, organization: nat, sender: string, decision: Option<Class>, names: Names, rules: Rules,
                       i: nat)
    requires i < |w.sources| && Coherent(w.sources[i]) && IsOf(w.sources[i], organization, sender)
    ensures AfterDecide(w.sources, organization, sender, decision, names, rules)[i]
         == NormalIn(w.sources[i], Decided(w.approvals, organization, sender, decision), names, rules)
  {
    SettleIsNormal(w.sources[i], decision, names(sender), rules);
  }

  lemma ClassifyIsNormal(s: Source, class_: Class, approvals: Approvals, names: Names, rules: Rules)
    ensures AfterClassify(s, class_, approvals, names, rules)
         == if class_ == Unknown then NormalIn(Classified(s, Unknown, NoOrigin, NoReason), approvals, names, rules)
            else Classified(s, class_, Manual, NoReason)
  {
    if class_ == Unknown {
      var open := Classified(s, Unknown, NoOrigin, NoReason);
      SettleIsNormal(open, DecisionOn(s, approvals), NameOf(s, names), rules);
    }
  }

  lemma IdentifyIsNormal(s: Source, sender: Option<string>, evidence: Evidence, approvals: Approvals, names: Names,
                         rules: Rules)
    requires Coherent(s)
    ensures AfterIdentify(s, sender, evidence, approvals, names, rules)
         == NormalIn(s.(sender := sender, evidence := evidence), approvals, names, rules)
  {
    var named := s.(sender := sender, evidence := evidence);
    SettleIsNormal(named, DecisionOn(named, approvals), NameOf(named, names), rules);
  }

  /** Equal, or carrying the same decision under different names of the sender. */
  predicate UpToName(a: Source, b: Source) {
    || a == b
    || (&& a.origin == b.origin == BySender && a.(reason := b.reason) == b
        && a.reason.SenderDecision? && b.reason.SenderDecision? && a.reason.class_ == b.reason.class_)
  }

  /** A rule pass brings every source it covers into normal form, also those it has no reason to look at. */
  lemma PassIsNormal(w: World, organization: Option<nat>, names: Names, known: Known, rules: Rules, i: nat)
    requires SoundWorld(w, known) && i < |w.sources|
    requires organization.Some? ==> w.sources[i].organization == organization.value
    ensures UpToName(AfterPass(w.sources, organization, rules)[i], NormalIn(w.sources[i], w.approvals, names, rules))
  {
    assert Sound(w.sources[i], w.approvals, known);
  }

  /** A rule pass leaves alone what another organisation has, and what a person or a decision about the sender
      settled. */
  lemma PassStays(sources: seq<Source>, organization: Option<nat>, rules: Rules, i: nat)
    requires i < |sources|
    requires || (organization.Some? && sources[i].organization != organization.value)
             || sources[i].origin == Manual || sources[i].origin == BySender
    ensures AfterPass(sources, organization, rules)[i] == sources[i]
  {
  }

  /** A source is known by organisation and address; passed messages count for it, failed ones do not. */
  predicate IsAt(s: Source, organization: nat, address: string) {
    s.organization == organization && s.address == address
  }

  lemma {:induction false} FirstIs(sources: seq<Source>, organization: nat, address: string, i: nat)
    requires i < |sources| && IsAt(sources[i], organization, address)
    requires forall j :: 0 <= j < i ==> !IsAt(sources[j], organization, address)
    ensures FirstOf(sources, organization, address) == i
  {
    if i > 0 {
      FirstIs(sources[1..], organization, address, i - 1);
    }
  }

  lemma {:induction false} FirstAbsent(sources: seq<Source>, organization: nat, address: string)
    requires forall j :: 0 <= j < |sources| ==> !IsAt(sources[j], organization, address)
    ensures FirstOf(sources, organization, address) == |sources|
  {
    if sources != [] {
      FirstAbsent(sources[1..], organization, address);
    }
  }

  /** An import counts passed messages for its source and changes nothing else; a new source starts unclassified. */
  lemma ImportCounts(sources: seq<Source>, organization: nat, address: string, count: int, passed: bool, i: nat)
    requires i <= |sources| && (i < |sources| ==> IsAt(sources[i], organization, address))
    requires forall j :: 0 <= j < i ==> !IsAt(sources[j], organization, address)
    ensures var after := AfterImport(sources, organization, address, count, passed);
            var gained := if passed then count else 0;
            && |after| == (if i < |sources| then |sources| else |sources| + 1)
            && (i < |sources| ==> after[i] == sources[i].(passCount := sources[i].passCount + gained))
            && (i == |sources| ==>
                  IsAt(after[i], organization, address) && after[i].passCount == gained && after[i].class_ == Unknown
                  && after[i].origin == NoOrigin && after[i].sender == None)
            && forall j :: 0 <= j < |sources| && j != i ==> after[j] == sources[j]
  {
    if i < |sources| {
      FirstIs(sources, organization, address, i);
    } else {
      FirstAbsent(sources, organization, address);
    }
  }

  lemma StepKeeps(w: World, step: Step, names: Names, known: Known, rules: Rules)
    requires ValidStep(w, step) && SoundWorld(w, known) && ValidRules(rules) && Knows(known, names)
    ensures SoundWorld(After(w, step, names, rules), known)
  {
    var next := After(w, step, names, rules);
    forall i | 0 <= i < |next.sources| ensures Sound(next.sources[i], next.approvals, known) {
      if i < |w.sources| {
        assert Sound(w.sources[i], w.approvals, known);
        SourceKeeps(w, step, names, known, rules, i);
      }
    }
  }

  lemma SourceKeeps(w: World, step: Step, names: Names, known: Known, rules: Rules, i: nat)
    requires ValidStep(w, step) && SoundWorld(w, known) && ValidRules(rules) && Knows(known, names)
    requires i < |w.sources| && Sound(w.sources[i], w.approvals, known)
    ensures var next := After(w, step, names, rules);
            i < |next.sources| && Sound(next.sources[i], next.approvals, known)
  {
    var next, s := After(w, step, names, rules), w.sources[i];
    match step
    case Import(_, _, _, _) =>
    case Decide(organization, sender, decision) =>
      if IsOf(s, organization, sender) {
        DecideIsNormal(w, organization, sender, decision, names, rules, i);
        NormalSound(s, next.approvals, names, known, rules);
      }
    case Classify(j, class_) =>
      if i == j {
        ClassifyIsNormal(s, class_, w.approvals, names, rules);
        NormalSound(Classified(s, Unknown, NoOrigin, NoReason), w.approvals, names, known, rules);
      }
    case Identify(j, sender, evidence) =>
      if i == j {
        IdentifyIsNormal(s, sender, evidence, w.approvals, names, rules);
        NormalSound(s.(sender := sender, evidence := evidence), w.approvals, names, known, rules);
      }
    case RulePass(organization) => RulesKeep(s, rules, w.approvals, known);
  }

  lemma RulesKeep(s: Source, rules: Rules, approvals: Approvals, known: Known)
    requires Sound(s, approvals, known) && ValidRules(rules)
    ensures Sound(ApplyRules(s, rules), approvals, known)
  {
  }

  // Runs ---------------------------------------------------------------------------------------------------------

  /** What may change from step to step besides the data: the rule settings and the names in the catalog. */
  datatype Setting = Setting(rules: Rules, names: Names)

  /** worlds[k] is the data before step k. */
  ghost predicate IsRun(worlds: seq<World>, steps: seq<Step>, settings: seq<Setting>, known: Known) {
    && |worlds| == |steps| + 1 && |settings| == |steps| && worlds[0] == World([], map[])
    && forall k: nat :: k < |steps| ==> StepsAt(worlds, steps, settings, known, k)
  }

  ghost predicate StepsAt(worlds: seq<World>, steps: seq<Step>, settings: seq<Setting>, known: Known, k: nat)
    requires |worlds| == |steps| + 1 && |settings| == |steps| && k < |steps|
  {
    && ValidStep(worlds[k], steps[k]) && ValidRules(settings[k].rules) && Knows(known, settings[k].names)
    && worlds[k + 1] == After(worlds[k], steps[k], settings[k].names, settings[k].rules)
  }

  /** After every interleaving of imports, decisions, resets, manual choices, identifications and rule passes. */
  lemma {:induction false} RunKeeps(worlds: seq<World>, steps: seq<Step>, settings: seq<Setting>, known: Known, k: nat)
    requires IsRun(worlds, steps, settings, known) && k <= |steps|
    ensures SoundWorld(worlds[k], known)
  {
    if k > 0 {
      RunKeeps(worlds, steps, settings, known, k - 1);
      assert StepsAt(worlds, steps, settings, known, k - 1);
      StepKeeps(worlds[k - 1], steps[k - 1], settings[k - 1].names, known, settings[k - 1].rules);
    }
  }

  /** What a person decided about the address, if that holds. */
  function Choice(s: Source): Option<Class> {
    if s.origin == Manual then Some(s.class_) else None
  }

  lemma StepKeepsChoice(w: World, step: Step, names: Names, rules: Rules, i: nat)
    requires ValidStep(w, step) && i < |w.sources| && !(step.Classify? && step.index == i)
    ensures var next := After(w, step, names, rules);
            i < |next.sources| && Choice(next.sources[i]) == Choice(w.sources[i])
  {
  }

  /** Over any stretch of a run in which no person decides about an address, the choice about it stays as it is: neither
      changed nor made by anything else. */
  lemma {:induction false} ManualStays(worlds: seq<World>, steps: seq<Step>, settings: seq<Setting>, known: Known,
                                       from: nat, to: nat, i: nat)
    requires IsRun(worlds, steps, settings, known) && from <= to <= |steps| && i < |worlds[from].sources|
    requires forall k :: from <= k < to ==> !(steps[k].Classify? && steps[k].index == i)
    ensures i < |worlds[to].sources| && Choice(worlds[to].sources[i]) == Choice(worlds[from].sources[i])
  {
    if from < to {
      var k := to - 1;
      ManualStays(worlds, steps, settings, known, from, k, i);
      assert StepsAt(worlds, steps, settings, known, k);
      StepKeepsChoice(worlds[k], steps[k], settings[k].names, settings[k].rules, i);
    }
  }

  lemma PassTwice(s: Source, rules: Rules)
    requires Coherent(s)
    ensures Passed(Passed(s, None, rules), None, rules) == Passed(s, None, rules)
  {
  }

  /** After one pass over everything, a second one changes no source. */
  lemma SecondPassIdle(worlds: seq<World>, steps: seq<Step>, settings: seq<Setting>, known: Known, k: nat,
                       names: Names, rules: Rules)
    requires IsRun(worlds, steps, settings, known) && k <= |steps| && ValidRules(rules)
    ensures var once := After(worlds[k], RulePass(None), names, rules);
            After(once, RulePass(None), names, rules) == once
  {
    var sources := worlds[k].sources;
    RunKeeps(worlds, steps, settings, known, k);
    var once := AfterPass(sources, None, rules);
    forall i | 0 <= i < |sources| ensures AfterPass(once, None, rules)[i] == once[i] {
      assert Sound(sources[i], worlds[k].approvals, known);
      PassTwice(sources[i], rules);
    }
    assert AfterPass(once, None, rules) == once;
  }

  /** What is on record about an address apart from its classification. */
  function Bare(s: Source): Source { Classified(s, Unknown, NoOrigin, NoReason) }

  /** Two runs of any kind, and a source in each, at any place: when they end with the same address data, the same
      decisions and the same choice of a person, one pass over everything leaves the same classification in both. */
  lemma HistoryIndependent(worlds1: seq<World>, steps1: seq<Step>, settings1: seq<Setting>, known1: Known, i: nat,
                           worlds2: seq<World>, steps2: seq<Step>, settings2: seq<Setting>, known2: Known, j: nat,
                           rules: Rules)
    requires IsRun(worlds1, steps1, settings1, known1) && IsRun(worlds2, steps2, settings2, known2)
    requires var a, b := worlds1[|steps1|], worlds2[|steps2|];
             && a.approvals == b.approvals && i < |a.sources| && j < |b.sources|
             && Bare(a.sources[i]) == Bare(b.sources[j]) && Choice(a.sources[i]) == Choice(b.sources[j])
    ensures UpToName(AfterPass(worlds1[|steps1|].sources, None, rules)[i],
                     AfterPass(worlds2[|steps2|].sources, None, rules)[j])
  {
    var a, b := worlds1[|steps1|], worlds2[|steps2|];
    RunKeeps(worlds1, steps1, settings1, known1, |steps1|);
    RunKeeps(worlds2, steps2, settings2, known2, |steps2|);
    assert Sound(a.sources[i], a.approvals, known1) && Sound(b.sources[j], b.approvals, known2);
    SameAfterPass(a.sources[i], b.sources[j], a.approvals, known1, known2, rules);
  }

  lemma SameAfterPass(a: Source, b: Source, approvals: Approvals, known1: Known, known2: Known, rules: Rules)
    requires Sound(a, approvals, known1) && Sound(b, approvals, known2)
    requires Bare(a) == Bare(b) && Choice(a) == Choice(b)
    ensures UpToName(Passed(a, None, rules), Passed(b, None, rules))
  {
    assert a.passCount == Bare(a).passCount == b.passCount && a.evidence == Bare(a).evidence == b.evidence;
    assert a.sender == Bare(a).sender == b.sender && a.organization == Bare(a).organization == b.organization;
    assert a.address == Bare(a).address == b.address;
  }
}
