/** Raising alerts: deduplication, pause, rules that break on their own, and the notifications of each event. */
module Alerts {
  import opened Wrappers
  import opened Text

  datatype Status = Open | Acknowledged | Resolved | Ignored

  predicate Active(status: Status) { status == Open || status == Acknowledged }

  /** What a rule found; the domain and the address together are its subject. */
  datatype Finding = Finding(domain: Option<nat>, source: Option<string>)

  datatype Event = Event(rule: Option<nat>, domain: Option<nat>, source: Option<string>, status: Status, created: int)

  /** known: the kind of the rule has an evaluator; channels: None for a list that cannot be read. */
  datatype Rule = Rule(id: nat, active: bool, known: bool, domain: Option<nat>, perDomain: bool, pause: nat,
                       channels: Option<set<nat>>)

  datatype Target = Channel(id: nat) | Address(email: string)
  datatype Delivery = Delivery(event: nat, target: Target)

  /** triggered: when a rule last raised something, and when its pause ends. */
  datatype World = World(events: seq<Event>, deliveries: seq<Delivery>, triggered: map<nat, (int, int)>)

  /** The active channels, the active domains by name, and who gets the alerts of a domain. */
  datatype Setup = Setup(channels: seq<nat>, domains: seq<nat>, addresses: nat -> seq<string>)

  /** What one evaluation meets: the findings of a rule for one domain or for all (None: the check raises), and after
      how many stored events of a rule storing raises. */
  datatype Evaluation = Evaluation(now: int, setup: Setup, check: (nat, Option<nat>) -> Option<seq<Finding>>,
                                   breaks: nat -> Option<nat>)

  // Subjects -------------------------------------------------------------------------------------------

  const MAX_SOURCE: nat := 45

  function Clean(s: string): string { Cut(DropControls(s), MAX_SOURCE) }

  /** The address as it is stored, and as the queries look for it. */
  function Stored(source: Option<string>): Option<string> {
    if source.None? || Clean(source.value) == "" then None else Some(Clean(source.value))
  }

  function Key(source: Option<string>): Option<string> {
    if source == Some("") then None else source
  }

  /** Cleaning leaves the address alone. */
  predicate CleanSource(source: Option<string>) {
    source.Some? ==> |source.value| <= MAX_SOURCE && NoControls(source.value)
  }

  predicate Canonical(f: Finding) { CleanSource(f.source) }

  /** The stored address is the one looked for exactly when there was nothing to clean. */
  lemma KeyStored(f: Finding)
    ensures Stored(f.source) == Key(f.source) <==> Canonical(f)
  {
    if f.source.Some? {
      NothingToDrop(f.source.value);
    }
  }

  lemma StoredClean(source: Option<string>)
    ensures CleanSource(Stored(source)) && Key(Stored(source)) == Stored(source)
  {
    if source.Some? {
      NothingToDrop(source.value);
    }
  }

  predicate Matches(e: Event, rule: nat, f: Finding) {
    e.rule == Some(rule) && e.domain == f.domain && e.source == Key(f.source)
  }

  predicate Duplicate(events: seq<Event>, rule: Rule, f: Finding) {
    exists i :: 0 <= i < |events| && Matches(events[i], rule.id, f) && Active(events[i].status)
  }

  predicate InPause(events: seq<Event>, rule: Rule, f: Finding, now: int) {
    && rule.pause != 0
    && exists i :: 0 <= i < |events| && Matches(events[i], rule.id, f) && events[i].created > now - rule.pause
  }

  predicate Blocked(events: seq<Event>, rule: Rule, f: Finding, now: int) {
    Duplicate(events, rule, f) || InPause(events, rule, f, now)
  }

  // Raising ------------------------------------------------------------------------------------------------

  function NewEvent(rule: Option<nat>, f: Finding, now: int): Event {
    Event(rule, f.domain, Stored(f.source), Open, now)
  }

  /** The channels that are active and, for the event of a rule, wanted by it. */
  function ChannelsFor(active: seq<nat>, wanted: Option<set<nat>>): (ids: seq<nat>) {
    if active == [] then []
    else
      var rest := ChannelsFor(active[1..], wanted);
      if wanted.None? || active[0] in wanted.value then [active[0]] + rest else rest
  }

  /** A list of a rule that cannot be read wants none. */
  function Wanted(rule: Rule): Option<set<nat>> {
    Some(if rule.channels.Some? then rule.channels.value else {})
  }

  function Targets(setup: Setup, wanted: Option<set<nat>>, domain: Option<nat>): seq<Target> {
    var ids := ChannelsFor(setup.channels, wanted);
    var emails := if domain.Some? then setup.addresses(domain.value) else [];
    Channels(ids) + Addresses(emails)
  }

  function Channels(ids: seq<nat>): seq<Target> {
    seq(|ids|, i requires 0 <= i < |ids| => Channel(ids[i]))
  }

  function Addresses(emails: seq<string>): seq<Target> {
    seq(|emails|, i requires 0 <= i < |emails| => Address(emails[i]))
  }

  function Notifications(event: nat, targets: seq<Target>): seq<Delivery> {
    seq(|targets|, i requires 0 <= i < |targets| => Delivery(event, targets[i]))
  }

  /** The deliveries of the events from a position on. */
  function Fan(events: seq<Event>, from: nat, setup: Setup, wanted: Option<set<nat>>): seq<Delivery>
    requires from <= |events|
    decreases |events|
  {
    if from == |events| then []
    else
      var last := |events| - 1;
      Fan(events[..last], from, setup, wanted) + Notifications(last, Targets(setup, wanted, events[last].domain))
  }

  /** Store the findings that are not blocked, one after the other; None when storing raises. */
  function Raised(events: seq<Event>, rule: Rule, findings: seq<Finding>, now: int, breaks: Option<nat>):
    Option<seq<Event>>
    decreases |findings|
  {
    if findings == [] then if breaks == Some(0) then None else Some(events)
    else if Blocked(events, rule, findings[0], now) then Raised(events, rule, findings[1..], now, breaks)
    else if breaks == Some(0) then None
    else
      var left := if breaks.Some? then Some(breaks.value - 1) else None;
      Raised(events + [NewEvent(Some(rule.id), findings[0], now)], rule, findings[1..], now, left)
  }

  function InDomains(rule: nat, domains: seq<nat>, check: (nat, Option<nat>) -> Option<seq<Finding>>):
    Option<seq<Finding>>
  {
    if domains == [] then Some([])
    else
      var here := check(rule, Some(domains[0]));
      var rest := InDomains(rule, domains[1..], check);
      if here.None? || rest.None? then None else Some(here.value + rest.value)
  }

  function Findings(rule: Rule, env: Evaluation): Option<seq<Finding>> {
    if rule.domain.Some? || !rule.perDomain then env.check(rule.id, rule.domain)
    else InDomains(rule.id, env.setup.domains, env.check)
  }

  function WithEvents(w: World, rule: Rule, events: seq<Event>, env: Evaluation): World
    requires |w.events| <= |events|
  {
    if |events| == |w.events| then w
    else World(events, w.deliveries + Fan(events, |w.events|, env.setup, Wanted(rule)),
               w.triggered[rule.id := (env.now, env.now + rule.pause)])
  }

  /** What a rule makes of the events; None when checking or storing raises, or the rule does not run. */
  function Outcome(events: seq<Event>, rule: Rule, env: Evaluation): Option<seq<Event>> {
    if !rule.active || !rule.known || Findings(rule, env).None? then None
    else Raised(events, rule, Findings(rule, env).value, env.now, env.breaks(rule.id))
  }

  lemma {:induction false} RaisedAppends(events: seq<Event>, rule: Rule, findings: seq<Finding>, now: int,
                                         breaks: Option<nat>)
    ensures var raised := Raised(events, rule, findings, now, breaks);
            raised.Some? ==> events <= raised.value
    decreases |findings|
  {
    if findings == [] {
    } else if Blocked(events, rule, findings[0], now) {
      RaisedAppends(events, rule, findings[1..], now, breaks);
    } else if breaks != Some(0) {
      var left := if breaks.Some? then Some(breaks.value - 1) else None;
      RaisedAppends(events + [NewEvent(Some(rule.id), findings[0], now)], rule, findings[1..], now, left);
    }
  }

  lemma OutcomeAppends(events: seq<Event>, rule: Rule, env: Evaluation)
    ensures Outcome(events, rule, env).Some? ==> events <= Outcome(events, rule, env).value
  {
    if Outcome(events, rule, env).Some? {
      RaisedAppends(events, rule, Findings(rule, env).value, env.now, env.breaks(rule.id));
    }
  }

  function EvaluateRule(w: World, rule: Rule, env: Evaluation): World {
    var events := Outcome(w.events, rule, env);
    OutcomeAppends(w.events, rule, env);
    if events.None? then w else WithEvents(w, rule, events.value, env)
  }

  function Evaluate(w: World, rules: seq<Rule>, env: Evaluation): World {
    if rules == [] then w else EvaluateRule(Evaluate(w, rules[..|rules| - 1], env), rules[|rules| - 1], env)
  }

  // Everything else that happens to events --------------------------------------------------------------------

  datatype Step =
    | Check(rules: seq<Rule>, env: Evaluation)
    | System(finding: Finding, now: int, setup: Setup)   // an event of no rule
    | Acknowledge(index: nat)
    | Resolve(index: nat)
    | AcknowledgeAll(members: set<nat>)
    | ResolveAll(members: set<nat>)
    | DeleteRule(id: nat)

  /** The rules of a check are rows with their own keys. */
  predicate DistinctRules(rules: seq<Rule>) {
    forall i, j :: 0 <= i < j < |rules| ==> rules[i].id != rules[j].id
  }

  predicate ValidStep(w: World, step: Step) {
    match step
    case Check(rules, _) => DistinctRules(rules)
    case Acknowledge(i) => i < |w.events|
    case Resolve(i) => i < |w.events|
    case _ => true
  }

  function WithStatus(events: seq<Event>, members: set<nat>, from: set<Status>, to: Status): (after: seq<Event>)
    ensures |after| == |events|
  {
    seq(|events|, i requires 0 <= i < |events| =>
      if i in members && events[i].status in from then events[i].(status := to) else events[i])
  }

  /** The events of a rule that is deleted stay, without a rule. */
  function Released(events: seq<Event>, rule: nat): (after: seq<Event>)
    ensures |after| == |events|
  {
    seq(|events|, i requires 0 <= i < |events| =>
      if events[i].rule == Some(rule) then events[i].(rule := None) else events[i])
  }

  function After(w: World, step: Step): World
    requires ValidStep(w, step)
  {
    match step
    case Check(rules, env) => Evaluate(w, rules, env)
    case System(f, now, setup) =>
      w.(events := w.events + [NewEvent(None, f, now)],
         deliveries := w.deliveries + Notifications(|w.events|, Targets(setup, None, f.domain)))
    case Acknowledge(i) => w.(events := w.events[i := w.events[i].(status := Acknowledged)])
    case Resolve(i) => w.(events := w.events[i := w.events[i].(status := Resolved)])
    case AcknowledgeAll(members) => w.(events := WithStatus(w.events, members, {Open}, Acknowledged))
    case ResolveAll(members) => w.(events := WithStatus(w.events, members, {Open, Acknowledged, Ignored}, Resolved))
    case DeleteRule(id) => w.(events := Released(w.events, id), triggered := w.triggered - {id})
  }
}
