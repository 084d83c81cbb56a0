/** The SPF part of the DNS check: counting the lookups of a record through its include and redirect terms.

    One definition of the walk carries the limits as a parameter. The program's walk stops at ten lookups;
    with the lookup limit dropped it is the walk RFC 7208 section 4.6.4 speaks about. */
module Spf {
  import opened Text
  import opened Wrappers

  const SPF_LOOKUP_LIMIT: nat := 10
  const SPF_MAX_DEPTH: nat := 10

  /** What a TXT lookup brings; a name that does not exist has no records. */
  datatype Answer = Failed | Records(texts: seq<string>)

  /** The resolver during one check: the same name always gets the same answer. */
  type Resolver = string -> Answer

  /** What a name means for the walk: the terms of its one SPF record, or why it has none to follow. */
  datatype Reading = Unreachable | Missing | Ambiguous | Single(terms: seq<Term>)
  type Zone = string -> Reading

  datatype Problem =
    | InvalidTerm(term: string)
    | Looping(link: Link)
    | NoRecord(link: Link)
    | SeveralRecords(link: Link)
    | TooManyLookups(count: nat)
    | OpenToAll

  /** The term that leads to another name, with its whole argument; what follows a slash is not part of the name. */
  datatype Link = IncludeOf(argument: string) | RedirectTo(value: string)

  function NameOf(link: Link): string {
    match link
    case IncludeOf(argument) => Before(argument, '/')
    case RedirectTo(value) => value
  }

  datatype Remark = PtrUsed | NeutralAll | NoClosingAll

  /** asked records each TXT query of the walk, as the chain of names that led to it. */
  datatype State = State(lookups: nat, errors: seq<Problem>, warnings: seq<Remark>, incomplete: bool,
                         asked: seq<seq<string>>)

  const START := State(0, [], [], false, [])

  // Reading a record -------------------------------------------------------------------------

  predicate IsSpf(text: string) {
    var lowered := Lower(Strip(text));
    lowered == "v=spf1" || StartsWith(lowered, "v=spf1 ")
  }

  function SpfRecords(texts: seq<string>): seq<string> {
    if texts == [] then [] else
      (if IsSpf(texts[0]) then [texts[0]] else []) + SpfRecords(texts[1..])
  }

  datatype Kind = All | Include | A | Mx | Ptr | Ip4 | Ip6 | Exists

  datatype Term =
    | Redirect(value: string)
    | Modifier
    | Invalid(text: string)
    | Mechanism(kind: Kind, argument: string)

  function KindOf(name: string): Option<Kind> {
    if name == "all" then Some(All)
    else if name == "include" then Some(Include)
    else if name == "a" then Some(A)
    else if name == "mx" then Some(Mx)
    else if name == "ptr" then Some(Ptr)
    else if name == "ip4" then Some(Ip4)
    else if name == "ip6" then Some(Ip6)
    else if name == "exists" then Some(Exists)
    else None
  }

  predicate Counted(kind: Kind) {
    kind.Include? || kind.A? || kind.Mx? || kind.Ptr? || kind.Exists?
  }

  predicate IsQualifier(c: char) { c in "+-~?" }

  function Classify(term: string): Term
    requires term != ""
  {
    var lowered := Lower(if IsQualifier(term[0]) then term[1..] else term);
    if '=' in Before(lowered, ':') then
      if Before(lowered, '=') == "redirect" then Redirect(After(lowered, '=')) else Modifier
    else
      match KindOf(Before(Before(lowered, ':'), '/'))
      case Some(kind) => Mechanism(kind, After(lowered, ':'))
      case None => Invalid(term)
  }

  /** The words of a record after the version. */
  function TermTexts(record: string): (texts: seq<string>)
    ensures forall k :: 0 <= k < |texts| ==> texts[k] != ""
  {
    var words := Words(record);
    if words == [] then [] else words[1..]
  }

  function ClassifyAll(texts: seq<string>): seq<Term>
    requires forall k :: 0 <= k < |texts| ==> texts[k] != ""
  {
    if texts == [] then [] else [Classify(texts[0])] + ClassifyAll(texts[1..])
  }

  function Terms(record: string): seq<Term> {
    ClassifyAll(TermTexts(record))
  }

  function Read(answer: Answer): Reading {
    match answer
    case Failed => Unreachable
    case Records(texts) =>
      var records := SpfRecords(texts);
      if records == [] then Missing else if |records| > 1 then Ambiguous else Single(Terms(records[0]))
  }

  function ZoneOf(resolve: Resolver): Zone {
    name => Read(resolve(name))
  }

  function TrimDots(name: string): string {
    if name != "" && name[|name| - 1] == '.' then TrimDots(name[..|name| - 1]) else name
  }

  /** An empty name and one with a macro in it lead nowhere. */
  predicate Followable(target: string) {
    target != "" && '%' !in target
  }

  // The walk -----------------------------------------------------------------------------------

  datatype Limits = Limits(depth: nat, lookups: Option<nat>)
  const CUT_OFF := Limits(SPF_MAX_DEPTH, Some(SPF_LOOKUP_LIMIT))

  /** The walk with the loop check as its only stop, down to chains of any length given. */
  function Unlimited(depth: nat): Limits { Limits(depth, None) }

  predicate Stops(limits: Limits, lookups: nat, path: seq<string>) {
    |path| > limits.depth || (limits.lookups.Some? && lookups > limits.lookups.value)
  }

  function Rank(limits: Limits, path: seq<string>): nat {
    if |path| <= limits.depth then limits.depth + 1 - |path| else 0
  }

  /** The loop variables of one record: the redirect seen last, whether an all was seen, and the shared state. */
  datatype Cursor = Cursor(redirect: string, hasAll: bool, st: State)

  function Open(st: State): Cursor { Cursor("", false, st) }

  function CountOne(st: State): State {
    st.(lookups := st.lookups + 1)
  }

  /** The effect of one mechanism apart from following it. */
  function Charge(kind: Kind, st: State, path: seq<string>): State {
    st.(lookups := if Counted(kind) then st.lookups + 1 else st.lookups,
        warnings := if kind == Ptr && |path| == 1 then st.warnings + [PtrUsed] else st.warnings)
  }

  /** Where an include or redirect leads: nowhere further, or into the record of one more name. */
  datatype Arrival = Done(st: State) | Enter(target: string, terms: seq<Term>, st: State)

  function Arrive(zone: Zone, limits: Limits, link: Link, st: State, path: seq<string>): Arrival {
    var target := TrimDots(NameOf(link));
    if !Followable(target) then Done(st)
    else if target in path then Done(st.(errors := st.errors + [Looping(link)]))
    else if Stops(limits, st.lookups, path) then Done(st)
    else
      var queried := st.(asked := st.asked + [path + [target]]);
      match zone(target)
      case Unreachable => Done(queried.(incomplete := true))
      case Missing => Done(queried.(errors := st.errors + [NoRecord(link)]))
      case Ambiguous => Done(queried.(errors := st.errors + [SeveralRecords(link)]))
      case Single(terms) => Enter(target, terms, queried)
  }

  function Follow(zone: Zone, limits: Limits, link: Link, st: State, path: seq<string>): State
    decreases Rank(limits, path), 0
  {
    match Arrive(zone, limits, link, st, path)
    case Done(st1) => st1
    case Enter(target, terms, st1) => Walk(zone, limits, terms, Open(st1), path + [target])
  }

  function Step(zone: Zone, limits: Limits, term: Term, c: Cursor, path: seq<string>): Cursor
    decreases Rank(limits, path), 1
  {
    match term
    case Redirect(value) => c.(redirect := value)
    case Modifier => c
    case Invalid(text) => c.(st := c.st.(errors := c.st.errors + [InvalidTerm(text)]))
    case Mechanism(kind, argument) =>
      var charged := Charge(kind, c.st, path);
      Cursor(c.redirect, c.hasAll || kind == All,
             if kind == Include then Follow(zone, limits, IncludeOf(argument), charged, path) else charged)
  }

  /** The end of a record: its last redirect leads on, unless the record has an all (RFC 7208, section 6.1). */
  function Close(zone: Zone, limits: Limits, c: Cursor, path: seq<string>): State
    decreases Rank(limits, path), 1
  {
    if c.redirect != "" && !c.hasAll then
      Follow(zone, limits, RedirectTo(c.redirect), CountOne(c.st), path)
    else c.st
  }

  function Walk(zone: Zone, limits: Limits, terms: seq<Term>, c: Cursor, path: seq<string>): State
    decreases Rank(limits, path), 2, |terms|
  {
    if terms == [] then Close(zone, limits, c, path)
    else Walk(zone, limits, terms[1..], Step(zone, limits, terms[0], c, path), path)
  }

  function WalkRecord(zone: Zone, limits: Limits, terms: seq<Term>, domain: string): State {
    Walk(zone, limits, terms, Open(START), [domain])
  }

  // The verdict ------------------------------------------------------------------------------------

  datatype Status = Ok | Warning | Error | Unknown

  function DropQualifiers(term: string): string {
    if term != "" && IsQualifier(term[0]) then DropQualifiers(term[1..]) else term
  }

  function ClosingAll(texts: seq<string>): Option<string> {
    if texts == [] then None
    else if DropQualifiers(Lower(texts[0])) == "all" then Some(Lower(texts[0]))
    else ClosingAll(texts[1..])
  }

  function Remarks(record: string): seq<Remark> {
    match ClosingAll(TermTexts(record))
    case Some(closing) => if closing == "?all" then [NeutralAll] else []
    case None => if Contains(Lower(record), "redirect=") then [] else [NoClosingAll]
  }

  function Judge(record: string, walk: State): Status {
    var tooMany := if walk.lookups > SPF_LOOKUP_LIMIT then [TooManyLookups(walk.lookups)] else [];
    var closing := ClosingAll(TermTexts(record));
    var open := if closing == Some("all") || closing == Some("+all") then [OpenToAll] else [];
    if walk.errors + tooMany + open != [] then Error
    else if walk.warnings + Remarks(record) != [] then Warning
    else if walk.incomplete then Unknown
    else Ok
  }

  function CheckSpf(resolve: Resolver, limits: Limits, domain: string): Status {
    match resolve(domain)
    case Failed => Unknown
    case Records(texts) =>
      var records := SpfRecords(texts);
      if records == [] then Warning
      else if |records| > 1 then Error
      else Judge(records[0], WalkRecord(ZoneOf(resolve), limits, Terms(records[0]), domain))
  }

  // The program's walk over one shared object -------------------------------------------------------

  class SpfWalk {
    var lookups: nat
    var errors: seq<Problem>
    var warnings: seq<Remark>
    var incomplete: bool
    ghost var asked: seq<seq<string>>

    ghost function Value(): State
      reads this
    {
      State(lookups, errors, warnings, incomplete, asked)
    }

    constructor ()
      ensures Value() == START
    {
      lookups, errors, warnings, incomplete, asked := 0, [], [], false, [];
    }

    method WalkSpf(zone: Zone, terms: seq<Term>, path: seq<string>)
      requires path != [] && Distinct(path) && |path| <= lookups + 1
      modifies this
      ensures Value() == Walk(zone, CUT_OFF, terms, Open(old(Value())), path)
      ensures old(lookups) <= lookups
      decreases Rank(CUT_OFF, path), 2
    {
      ghost var result := Walk(zone, CUT_OFF, terms, Open(Value()), path);
      var redirect, hasAll := "", false;
      var rest := terms;
      while rest != []
        invariant result == Walk(zone, CUT_OFF, rest, Cursor(redirect, hasAll, Value()), path)
        invariant old(lookups) <= lookups
      {
        redirect, hasAll := TakeTerm(zone, rest[0], redirect, hasAll, path);
        rest := rest[1..];
      }
      if redirect != "" && !hasAll {
        lookups := lookups + 1;
        FollowName(zone, RedirectTo(redirect), path);
      }
    }

    /** One turn of the loop over the terms. */
    method TakeTerm(zone: Zone, term: Term, redirect: string, hasAll: bool, path: seq<string>)
      returns (lastRedirect: string, sawAll: bool)
      requires path != [] && Distinct(path) && |path| <= lookups + 1
      modifies this
      ensures Cursor(lastRedirect, sawAll, Value())
           == Step(zone, CUT_OFF, term, Cursor(redirect, hasAll, old(Value())), path)
      ensures old(lookups) <= lookups
      decreases Rank(CUT_OFF, path), 1
    {
      lastRedirect, sawAll := redirect, hasAll;
      match term
      case Redirect(value) => lastRedirect := value;
      case Modifier =>
      case Invalid(text) => errors := errors + [InvalidTerm(text)];
      case Mechanism(kind, argument) =>
        sawAll := hasAll || kind == All;
        if Counted(kind) {
          lookups := lookups + 1;
        }
        if kind == Ptr && |path| == 1 {
          warnings := warnings + [PtrUsed];
        }
        if kind == Include {
          FollowName(zone, IncludeOf(argument), path);
        }
    }

    /** The precondition states what holds whenever the program follows a name: the chain has no name twice and
        is no longer than the lookups counted so far. */
    method FollowName(zone: Zone, link: Link, path: seq<string>)
      requires path != [] && Distinct(path) && |path| <= lookups
      modifies this
      ensures Value() == Follow(zone, CUT_OFF, link, old(Value()), path)
      ensures old(lookups) <= lookups
      decreases Rank(CUT_OFF, path), 0
    {
      var target := TrimDots(NameOf(link));
      if !Followable(target) {
        return;
      }
      if target in path {
        errors := errors + [Looping(link)];
        return;
      }
      if |path| > SPF_MAX_DEPTH || lookups > SPF_LOOKUP_LIMIT {
        return;
      }
      asked := asked + [path + [target]];
      match zone(target)
      case Unreachable => incomplete := true;
      case Missing => errors := errors + [NoRecord(link)];
      case Ambiguous => errors := errors + [SeveralRecords(link)];
      case Single(terms) => WalkSpf(zone, terms, path + [target]);
    }
  }

  method CheckRecord(resolve: Resolver, domain: string, record: string) returns (status: Status)
    ensures status == Judge(record, WalkRecord(ZoneOf(resolve), CUT_OFF, Terms(record), domain))
  {
    var walk := new SpfWalk();
    walk.WalkSpf(ZoneOf(resolve), Terms(record), [domain]);
    var closing := ClosingAll(TermTexts(record));
    if walk.lookups > SPF_LOOKUP_LIMIT {
      walk.errors := walk.errors + [TooManyLookups(walk.lookups)];
    }
    if closing == Some("all") || closing == Some("+all") {
      walk.errors := walk.errors + [OpenToAll];
    } else {
      walk.warnings := walk.warnings + Remarks(record);
    }
    status := if walk.errors != [] then Error
              else if walk.warnings != [] then Warning
              else if walk.incomplete then Unknown
              else Ok;
  }
}
