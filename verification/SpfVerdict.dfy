/** The verdict on an SPF record in terms of the names its include and redirect terms lead to, without the walk. */
module SpfVerdict {
  import opened Text
  import opened Wrappers
  import opened Spf
  import opened SpfGuarantees

  // Names that lead to names -----------------------------------------------------------------------------

  /** An include of the name stands in the record, or its last redirect names it and the record has no all. */
  predicate Leads(terms: seq<Term>, target: string) {
    && target != "" && '%' !in target
    && (|| (exists k :: 0 <= k < |terms| && Includes(terms[k], target))
        || (!HasAll(terms) && LastRedirect(terms, "") != "" && TrimDots(LastRedirect(terms, "")) == target))
  }

  predicate Includes(term: Term, target: string) {
    term.Mechanism? && term.kind == Include && TrimDots(Before(term.argument, '/')) == target
  }

  function TermsOf(zone: Zone, name: string): seq<Term> {
    match zone(name)
    case Single(terms) => terms
    case _ => []
  }

  /** Each name has one SPF record, which leads to the next; none comes twice. */
  ghost predicate IsChain(zone: Zone, chain: seq<string>) {
    && chain != [] && Distinct(chain)
    && (forall k :: 0 <= k < |chain| ==> zone(chain[k]).Single?)
    && (forall k :: 0 < k < |chain| ==> Leads(TermsOf(zone, chain[k - 1]), chain[k]))
  }

  datatype Want = Faults | Failures

  function Last(chain: seq<string>): string
    requires chain != []
  {
    chain[|chain| - 1]
  }

  predicate Lost(zone: Zone, chain: seq<string>, target: string, want: Want) {
    if target in chain then want == Faults
    else if want == Faults then zone(target).Missing? || zone(target).Ambiguous?
    else zone(target).Unreachable?
  }

  /** A fault at the end of a chain: a term that is none, or a name that leads back or has no or several records. A
      failure: a name that gets no answer. */
  ghost predicate Ends(zone: Zone, chain: seq<string>, want: Want)
    requires chain != []
  {
    var terms := TermsOf(zone, Last(chain));
    || (want == Faults && exists k :: 0 <= k < |terms| && terms[k].Invalid?)
    || (exists target :: Leads(terms, target) && Lost(zone, chain, target, want))
  }

  /** Some chain of names from the domain on ends so. */
  ghost predicate Somewhere(zone: Zone, domain: string, want: Want) {
    exists chain :: IsChain(zone, chain) && chain[0] == domain && Ends(zone, chain, want)
  }

  // The walk meets exactly what chains lead to --------------------------------------------------------------------

  predicate NameSees(zone: Zone, depth: nat, name: string, path: seq<string>, want: Want)
    decreases Rank(Unlimited(depth), path), 0
  {
    var target := TrimDots(name);
    && Followable(target)
    && if target in path || |path| > depth then target in path && want == Faults
       else match zone(target)
         case Single(terms) => RecordSees(zone, depth, terms, path + [target], want)
         case Unreachable => want == Failures
         case _ => want == Faults
  }

  predicate TermSees(zone: Zone, depth: nat, term: Term, path: seq<string>, want: Want)
    decreases Rank(Unlimited(depth), path), 1
  {
    || (want == Faults && term.Invalid?)
    || (term.Mechanism? && term.kind == Include && NameSees(zone, depth, Before(term.argument, '/'), path, want))
  }

  predicate TermsSee(zone: Zone, depth: nat, terms: seq<Term>, path: seq<string>, want: Want)
    decreases Rank(Unlimited(depth), path), 2, |terms|
  {
    terms != [] && (TermSees(zone, depth, terms[0], path, want) || TermsSee(zone, depth, terms[1..], path, want))
  }

  predicate RedirectSees(zone: Zone, depth: nat, redirect: string, path: seq<string>, want: Want)
    decreases Rank(Unlimited(depth), path), 1
  {
    redirect != "" && NameSees(zone, depth, redirect, path, want)
  }

  predicate RecordSees(zone: Zone, depth: nat, terms: seq<Term>, path: seq<string>, want: Want)
    decreases Rank(Unlimited(depth), path), 3
  {
    || TermsSee(zone, depth, terms, path, want)
    || (!HasAll(terms) && RedirectSees(zone, depth, LastRedirect(terms, ""), path, want))
  }

  predicate Noted(st: State, want: Want) {
    if want == Faults then st.errors != [] else st.incomplete
  }

  lemma {:induction false} WalkNotes(zone: Zone, depth: nat, terms: seq<Term>, c: Cursor, path: seq<string>, want: Want)
    ensures Noted(Walk(zone, Unlimited(depth), terms, c, path), want)
        <==> Noted(c.st, want) || TermsSee(zone, depth, terms, path, want)
             || (!(c.hasAll || HasAll(terms))
                 && RedirectSees(zone, depth, LastRedirect(terms, c.redirect), path, want))
    decreases Rank(Unlimited(depth), path), 2, |terms|
  {
    if terms == [] {
      if c.redirect != "" && !c.hasAll {
        FollowNotes(zone, depth, RedirectTo(c.redirect), CountOne(c.st), path, want);
      }
    } else {
      StepNotes(zone, depth, terms[0], c, path, want);
      StepCosts(zone, depth, terms[0], c, path);
      HasAllFirst(terms);
      WalkNotes(zone, depth, terms[1..], Step(zone, Unlimited(depth), terms[0], c, path), path, want);
    }
  }

  lemma {:induction false} StepNotes(zone: Zone, depth: nat, term: Term, c: Cursor, path: seq<string>, want: Want)
    ensures Noted(Step(zone, Unlimited(depth), term, c, path).st, want)
        <==> Noted(c.st, want) || TermSees(zone, depth, term, path, want)
    decreases Rank(Unlimited(depth), path), 1
  {
    if term.Mechanism? && term.kind == Include {
      FollowNotes(zone, depth, IncludeOf(term.argument), Charge(Include, c.st, path), path, want);
    }
  }

  lemma {:induction false} FollowNotes(zone: Zone, depth: nat, link: Link, st: State, path: seq<string>, want: Want)
    ensures Noted(Follow(zone, Unlimited(depth), link, st, path), want)
        <==> Noted(st, want) || NameSees(zone, depth, NameOf(link), path, want)
    decreases Rank(Unlimited(depth), path), 0
  {
    match Arrive(zone, Unlimited(depth), link, st, path)
    case Done(_) =>
    case Enter(target, terms, st1) => WalkNotes(zone, depth, terms, Open(st1), path + [target], want);
  }

  // From the walk to chains ----------------------------------------------------------------------------------------

  lemma ChainLonger(zone: Zone, path: seq<string>, target: string)
    requires IsChain(zone, path) && Leads(TermsOf(zone, Last(path)), target)
    requires target !in path && zone(target).Single?
    ensures IsChain(zone, path + [target])
  {
    var chain := path + [target];
    forall k | 0 < k < |chain| ensures Leads(TermsOf(zone, chain[k - 1]), chain[k]) {
      if k < |path| {
        assert chain[k - 1] == path[k - 1] && chain[k] == path[k];
      }
    }
  }

  lemma {:induction false} NameLeads(zone: Zone, depth: nat, name: string, path: seq<string>, want: Want)
    requires IsChain(zone, path) && Leads(TermsOf(zone, Last(path)), TrimDots(name))
    requires NameSees(zone, depth, name, path, want)
    ensures Somewhere(zone, path[0], want)
    decreases Rank(Unlimited(depth), path), 0
  {
    var target := TrimDots(name);
    if target in path || !zone(target).Single? {
      assert Lost(zone, path, target, want);
      assert Ends(zone, path, want);
    } else {
      ChainLonger(zone, path, target);
      RecordLeads(zone, depth, zone(target).terms, path + [target], want);
    }
  }

  lemma {:induction false} RecordLeads(zone: Zone, depth: nat, terms: seq<Term>, path: seq<string>, want: Want)
    requires IsChain(zone, path) && terms == TermsOf(zone, Last(path)) && RecordSees(zone, depth, terms, path, want)
    ensures Somewhere(zone, path[0], want)
    decreases Rank(Unlimited(depth), path), 3
  {
    if TermsSee(zone, depth, terms, path, want) {
      var k := TermThatSees(zone, depth, terms, path, want);
      if terms[k].Invalid? {
        assert Ends(zone, path, want);
      } else {
        NameFollowable(zone, depth, Before(terms[k].argument, '/'), path, want);
        assert Includes(terms[k], TrimDots(Before(terms[k].argument, '/')));
        NameLeads(zone, depth, Before(terms[k].argument, '/'), path, want);
      }
    } else {
      NameFollowable(zone, depth, LastRedirect(terms, ""), path, want);
      NameLeads(zone, depth, LastRedirect(terms, ""), path, want);
    }
  }

  lemma NameFollowable(zone: Zone, depth: nat, name: string, path: seq<string>, want: Want)
    requires NameSees(zone, depth, name, path, want)
    ensures Followable(TrimDots(name))
  {
  }

  lemma {:induction false} TermThatSees(zone: Zone, depth: nat, terms: seq<Term>, path: seq<string>, want: Want)
    returns (k: nat)
    requires TermsSee(zone, depth, terms, path, want)
    ensures k < |terms| && TermSees(zone, depth, terms[k], path, want)
  {
    if TermSees(zone, depth, terms[0], path, want) {
      k := 0;
    } else {
      k := TermThatSees(zone, depth, terms[1..], path, want);
      k := k + 1;
    }
  }

  // From chains to the walk ------------------------------------------------------------------------------------------

  lemma {:induction false} TermSeen(zone: Zone, depth: nat, terms: seq<Term>, path: seq<string>, want: Want, k: nat)
    requires k < |terms| && TermSees(zone, depth, terms[k], path, want)
    ensures TermsSee(zone, depth, terms, path, want)
  {
    if k > 0 {
      assert terms[1..][k - 1] == terms[k];
      TermSeen(zone, depth, terms[1..], path, want, k - 1);
    }
  }

  /** What the walk meets behind a name, it meets in the record that leads there. */
  lemma LeadSeen(zone: Zone, depth: nat, terms: seq<Term>, path: seq<string>, want: Want, target: string)
    requires Leads(terms, target)
    requires forall name :: TrimDots(name) == target ==> NameSees(zone, depth, name, path, want)
    ensures RecordSees(zone, depth, terms, path, want)
  {
    if exists k :: 0 <= k < |terms| && Includes(terms[k], target) {
      var k :| 0 <= k < |terms| && Includes(terms[k], target);
      TermSeen(zone, depth, terms, path, want, k);
    }
  }

  lemma EndSeen(zone: Zone, depth: nat, chain: seq<string>, want: Want)
    requires IsChain(zone, chain) && |chain| <= depth && Ends(zone, chain, want)
    ensures RecordSees(zone, depth, TermsOf(zone, Last(chain)), chain, want)
  {
    var terms := TermsOf(zone, Last(chain));
    if want == Faults && exists k :: 0 <= k < |terms| && terms[k].Invalid? {
      var k :| 0 <= k < |terms| && terms[k].Invalid?;
      TermSeen(zone, depth, terms, chain, want, k);
    } else {
      var target :| Leads(terms, target) && Lost(zone, chain, target, want);
      LeadSeen(zone, depth, terms, chain, want, target);
    }
  }

  lemma {:induction false} ChainSeen(zone: Zone, depth: nat, chain: seq<string>, want: Want, n: nat)
    requires IsChain(zone, chain) && |chain| <= depth && Ends(zone, chain, want) && 0 < n <= |chain|
    ensures RecordSees(zone, depth, TermsOf(zone, chain[n - 1]), chain[..n], want)
    decreases |chain| - n
  {
    if n == |chain| {
      assert chain[..n] == chain;
      EndSeen(zone, depth, chain, want);
    } else {
      ChainSeen(zone, depth, chain, want, n + 1);
      var target, path := chain[n], chain[..n];
      assert chain[..n + 1] == path + [target];
      assert target !in path;
      assert Leads(TermsOf(zone, chain[n - 1]), chain[n]);
      LeadSeen(zone, depth, TermsOf(zone, chain[n - 1]), path, want, target);
    }
  }

  /** A walk deep enough for a chain notes what is at its end. */
  lemma WalkOfChain(zone: Zone, domain: string, depth: nat, chain: seq<string>, want: Want)
    requires IsChain(zone, chain) && chain[0] == domain && Ends(zone, chain, want) && |chain| <= depth
    ensures Noted(WalkRecord(zone, Unlimited(depth), TermsOf(zone, domain), domain), want)
  {
    ChainSeen(zone, depth, chain, want, 1);
    assert chain[..1] == [domain];
    WalkNotes(zone, depth, TermsOf(zone, domain), Open(START), [domain], want);
  }

  lemma ChainOfWalk(zone: Zone, domain: string, depth: nat, want: Want)
    requires zone(domain).Single?
    requires Noted(WalkRecord(zone, Unlimited(depth), TermsOf(zone, domain), domain), want)
    ensures Somewhere(zone, domain, want)
  {
    WalkNotes(zone, depth, TermsOf(zone, domain), Open(START), [domain], want);
    RecordLeads(zone, depth, TermsOf(zone, domain), [domain], want);
  }

  // Warnings of the walk ---------------------------------------------------------------------------------------------

  predicate HasPtr(terms: seq<Term>) {
    exists k :: 0 <= k < |terms| && terms[k].Mechanism? && terms[k].kind == Ptr
  }

  lemma {:induction false} WalkWarns(zone: Zone, limits: Limits, terms: seq<Term>, c: Cursor, path: seq<string>)
    requires path != []
    ensures Walk(zone, limits, terms, c, path).warnings != [] <==> c.st.warnings != [] || (|path| == 1 && HasPtr(terms))
    decreases Rank(limits, path), 2, |terms|
  {
    if terms == [] {
      if c.redirect != "" && !c.hasAll {
        FollowWarns(zone, limits, RedirectTo(c.redirect), CountOne(c.st), path);
      }
    } else {
      StepWarns(zone, limits, terms[0], c, path);
      WalkWarns(zone, limits, terms[1..], Step(zone, limits, terms[0], c, path), path);
      HasPtrFirst(terms);
    }
  }

  lemma HasPtrFirst(terms: seq<Term>)
    requires terms != []
    ensures HasPtr(terms) <==> (terms[0].Mechanism? && terms[0].kind == Ptr) || HasPtr(terms[1..])
  {
    if HasPtr(terms) && !(terms[0].Mechanism? && terms[0].kind == Ptr) {
      var k :| 0 <= k < |terms| && terms[k].Mechanism? && terms[k].kind == Ptr;
      assert terms[1..][k - 1] == terms[k];
    }
    if HasPtr(terms[1..]) {
      var k :| 0 <= k < |terms| - 1 && terms[1..][k].Mechanism? && terms[1..][k].kind == Ptr;
      assert terms[k + 1].Mechanism?;
    }
  }

  lemma {:induction false} StepWarns(zone: Zone, limits: Limits, term: Term, c: Cursor, path: seq<string>)
    requires path != []
    ensures Step(zone, limits, term, c, path).st.warnings != []
        <==> c.st.warnings != [] || (|path| == 1 && term.Mechanism? && term.kind == Ptr)
    decreases Rank(limits, path), 1
  {
    if term.Mechanism? && term.kind == Include {
      FollowWarns(zone, limits, IncludeOf(term.argument), Charge(Include, c.st, path), path);
    }
  }

  lemma {:induction false} FollowWarns(zone: Zone, limits: Limits, link: Link, st: State, path: seq<string>)
    requires path != []
    ensures Follow(zone, limits, link, st, path).warnings != [] <==> st.warnings != []
    decreases Rank(limits, path), 0
  {
    match Arrive(zone, limits, link, st, path)
    case Done(_) =>
    case Enter(target, terms, st1) => WalkWarns(zone, limits, terms, Open(st1), path + [target]);
  }

  // The closing all ---------------------------------------------------------------------------------------------

  /** An all behind any number of qualifiers. */
  predicate EndsInAll(word: string) {
    |word| >= 3 && word[|word| - 3..] == "all" && AreQualifiers(word[..|word| - 3])
  }

  predicate IsAll(text: string) { EndsInAll(Lower(text)) }

  predicate AreQualifiers(text: string) {
    forall k :: 0 <= k < |text| ==> text[k] == '+' || text[k] == '-' || text[k] == '~' || text[k] == '?'
  }

  /** The first all among the words after the version is the k-th. */
  predicate FirstAll(texts: seq<string>, k: nat) {
    k < |texts| && IsAll(texts[k]) && forall j :: 0 <= j < k ==> !IsAll(texts[j])
  }

  lemma {:induction false} DropsToAll(word: string)
    ensures DropQualifiers(word) == "all" <==> EndsInAll(word)
  {
    if word != "" {
      var rest := word[1..];
      if IsQualifier(word[0]) {
        DropsToAll(rest);
        EndsInAllNext(word, rest);
      } else {
        NoQualifier(word);
      }
    }
  }

  lemma NoQualifier(word: string)
    ensures EndsInAll(word) ==> word == "all" || IsQualifier(word[0])
  {
    if EndsInAll(word) {
      var front := word[..|word| - 3];
      assert word == front + "all";
      if front != "" {
        assert front[0] == word[0];
      }
    }
  }

  lemma EndsInAllNext(word: string, rest: string)
    requires word != "" && rest == word[1..] && IsQualifier(word[0])
    ensures EndsInAll(word) <==> EndsInAll(rest)
  {
    if |rest| >= 3 {
      assert word[|word| - 3..] == rest[|rest| - 3..];
      var front, less := word[..|word| - 3], rest[..|rest| - 3];
      assert front == [word[0]] + less;
      assert forall k :: 0 <= k < |less| ==> less[k] == front[k + 1];
    } else if |word| == 3 {
      assert word[0..] == word;
      assert "all"[0] == 'a';
    }
  }

  lemma {:induction false} ClosingIsFirst(texts: seq<string>) returns (k: nat)
    requires ClosingAll(texts).Some?
    ensures FirstAll(texts, k) && Lower(texts[k]) == ClosingAll(texts).value
  {
    DropsToAll(Lower(texts[0]));
    if IsAll(texts[0]) {
      k := 0;
    } else {
      var i := ClosingIsFirst(texts[1..]);
      k := i + 1;
      assert forall j :: 0 < j <= k ==> texts[j] == texts[1..][j - 1];
    }
  }

  lemma {:induction false} NoClosing(texts: seq<string>)
    ensures ClosingAll(texts).None? <==> Unclosed(texts)
  {
    if texts != [] {
      DropsToAll(Lower(texts[0]));
      NoClosing(texts[1..]);
      assert texts == [texts[0]] + texts[1..];
    }
  }

  /** The first all stands so, in lower case. */
  predicate ClosesWith(texts: seq<string>, closing: string) {
    exists k: nat :: k < |texts| && FirstAll(texts, k) && Lower(texts[k]) == closing
  }

  predicate Unclosed(texts: seq<string>) {
    forall k :: 0 <= k < |texts| ==> !IsAll(texts[k])
  }

  lemma ClosingExactly(texts: seq<string>, closing: string)
    ensures ClosingAll(texts) == Some(closing) <==> ClosesWith(texts, closing)
    ensures ClosingAll(texts) == None <==> Unclosed(texts)
  {
    NoClosing(texts);
    if ClosingAll(texts).Some? {
      var j := ClosingIsFirst(texts);
      if ClosesWith(texts, closing) {
        var k: nat :| k < |texts| && FirstAll(texts, k) && Lower(texts[k]) == closing;
        assert j == k;
      }
    }
  }

  // The verdict -------------------------------------------------------------------------------------------------

  /** A record fails when a chain from it ends in a fault, its tree takes more than ten lookups, or it lets in
      everyone. */
  ghost predicate Fails(zone: Zone, domain: string, record: string) {
    || Somewhere(zone, domain, Faults)
    || RecordCost(zone, SPF_MAX_DEPTH, Terms(record), [domain]) > 10
    || ClosesWith(TermTexts(record), "all") || ClosesWith(TermTexts(record), "+all")
  }

  /** A record is weak when it uses ptr itself, ends neutrally, or has neither an all nor a redirect. */
  ghost predicate IsWeak(record: string) {
    || HasPtr(Terms(record))
    || ClosesWith(TermTexts(record), "?all")
    || (Unclosed(TermTexts(record)) && !Contains(Lower(record), "redirect="))
  }

  lemma JudgeExactly(zone: Zone, domain: string, record: string)
    requires zone(domain) == Single(Terms(record))
    ensures Judge(record, WalkRecord(zone, CUT_OFF, Terms(record), domain))
         == if Fails(zone, domain, record) then Error
            else if IsWeak(record) then Warning
            else if Somewhere(zone, domain, Failures) then Unknown
            else Ok
  {
    var terms, texts := Terms(record), TermTexts(record);
    var cut := WalkRecord(zone, CUT_OFF, terms, domain);
    CutOffRefines(zone, domain, terms, SPF_MAX_DEPTH);
    WalkWarns(zone, CUT_OFF, terms, Open(START), [domain]);
    ClosingExactly(texts, "all");
    ClosingExactly(texts, "+all");
    ClosingExactly(texts, "?all");
    if cut.lookups <= SPF_LOOKUP_LIMIT {
      NotedExactly(zone, domain, terms, Faults);
      NotedExactly(zone, domain, terms, Failures);
    }
  }

  /** Within the limit the program's walk notes what some chain ends in, and nothing else. */
  lemma NotedExactly(zone: Zone, domain: string, terms: seq<Term>, want: Want)
    requires zone(domain) == Single(terms)
    requires WalkRecord(zone, CUT_OFF, terms, domain).lookups <= SPF_LOOKUP_LIMIT
    ensures Noted(WalkRecord(zone, CUT_OFF, terms, domain), want) <==> Somewhere(zone, domain, want)
  {
    CutOffRefines(zone, domain, terms, SPF_MAX_DEPTH);
    if Noted(WalkRecord(zone, CUT_OFF, terms, domain), want) {
      ChainOfWalk(zone, domain, SPF_MAX_DEPTH, want);
    }
    if Somewhere(zone, domain, want) {
      var chain :| IsChain(zone, chain) && chain[0] == domain && Ends(zone, chain, want);
      var depth := if |chain| > SPF_MAX_DEPTH then |chain| else SPF_MAX_DEPTH;
      CutOffRefines(zone, domain, terms, depth);
      WalkOfChain(zone, domain, depth, chain, want);
    }
  }

  /** The verdict on a domain, in terms of its records, the chains of names they lead to, the size of the include tree
      and the words of the record. */
  lemma VerdictIs(resolve: Resolver, domain: string)
    ensures CheckSpf(resolve, CUT_OFF, domain)
         == match resolve(domain)
            case Failed => Unknown
            case Records(texts) =>
              var records := SpfRecords(texts);
              if records == [] then Warning
              else if |records| > 1 || Fails(ZoneOf(resolve), domain, records[0]) then Error
              else if IsWeak(records[0]) then Warning
              else if Somewhere(ZoneOf(resolve), domain, Failures) then Unknown
              else Ok
  {
    match resolve(domain)
    case Failed =>
    case Records(texts) =>
      var records := SpfRecords(texts);
      if |records| == 1 {
        JudgeExactly(ZoneOf(resolve), domain, records[0]);
      }
  }
}
