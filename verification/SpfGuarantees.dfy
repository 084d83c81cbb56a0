/** What the SPF walk guarantees: few queries, and the verdict of the whole include tree in spite of the limits. */
module SpfGuarantees {
  import opened Text
  import opened Wrappers
  import opened Spf

  // What every walk keeps ----------------------------------------------------------------------

  /** Chains of queries: no name twice, at most as many names below the domain as the depth allows. */
  predicate GoodChains(limits: Limits, asked: seq<seq<string>>) {
    forall k :: 0 <= k < |asked| ==> Distinct(asked[k]) && 2 <= |asked[k]| <= limits.depth + 1
  }

  /** Queries are paid for by lookups, and none starts once the lookups are past the limit. */
  predicate Paid(limits: Limits, st: State) {
    |st.asked| <= st.lookups && (limits.lookups.Some? ==> |st.asked| <= limits.lookups.value)
  }

  predicate Sound(limits: Limits, st: State) {
    GoodChains(limits, st.asked) && Paid(limits, st)
  }

  lemma {:induction false} WalkKeeps(zone: Zone, limits: Limits, terms: seq<Term>, c: Cursor, path: seq<string>)
    requires path != [] && Distinct(path) && Sound(limits, c.st)
    ensures Sound(limits, Walk(zone, limits, terms, c, path))
    decreases Rank(limits, path), 2, |terms|
  {
    if terms != [] {
      StepKeeps(zone, limits, terms[0], c, path);
      WalkKeeps(zone, limits, terms[1..], Step(zone, limits, terms[0], c, path), path);
    } else if c.redirect != "" && !c.hasAll {
      FollowKeeps(zone, limits, RedirectTo(c.redirect), CountOne(c.st), path);
    }
  }

  lemma {:induction false} StepKeeps(zone: Zone, limits: Limits, term: Term, c: Cursor, path: seq<string>)
    requires path != [] && Distinct(path) && Sound(limits, c.st)
    ensures Sound(limits, Step(zone, limits, term, c, path).st)
    decreases Rank(limits, path), 1
  {
    if term.Mechanism? && term.kind == Include {
      FollowKeeps(zone, limits, IncludeOf(term.argument), Charge(Include, c.st, path), path);
    }
  }

  lemma {:induction false} FollowKeeps(zone: Zone, limits: Limits, link: Link, st: State, path: seq<string>)
    requires path != [] && Distinct(path) && Sound(limits, st) && |st.asked| < st.lookups
    ensures Sound(limits, Follow(zone, limits, link, st, path))
    decreases Rank(limits, path), 0
  {
    ArriveKeeps(zone, limits, link, st, path);
    match Arrive(zone, limits, link, st, path)
    case Done(_) =>
    case Enter(target, terms, st1) => WalkKeeps(zone, limits, terms, Open(st1), path + [target]);
  }

  lemma ArriveKeeps(zone: Zone, limits: Limits, link: Link, st: State, path: seq<string>)
    requires path != [] && Distinct(path) && Sound(limits, st) && |st.asked| < st.lookups
    ensures var a := Arrive(zone, limits, link, st, path);
            Sound(limits, a.st) && (a.Enter? ==> |path| <= limits.depth && Distinct(path + [a.target]))
  {
    var target := TrimDots(NameOf(link));
    if target !in path {
      var chain := path + [target];
      assert Distinct(chain);
      if !Stops(limits, st.lookups, path) {
        assert GoodChains(limits, st.asked + [chain]);
      }
    }
  }

  /** The program's check of any domain under any zone: at most ten TXT queries for included and redirected
      records, each for a chain of distinct names at most eleven long. */
  lemma QueriesBounded(zone: Zone, domain: string, terms: seq<Term>)
    ensures var r := WalkRecord(zone, CUT_OFF, terms, domain);
            |r.asked| <= SPF_LOOKUP_LIMIT && GoodChains(CUT_OFF, r.asked)
  {
    WalkKeeps(zone, CUT_OFF, terms, Open(START), [domain]);
  }

  lemma {:induction false} WalkGrows(zone: Zone, limits: Limits, terms: seq<Term>, c: Cursor, path: seq<string>)
    ensures c.st.lookups <= Walk(zone, limits, terms, c, path).lookups
    decreases Rank(limits, path), 2, |terms|
  {
    if terms != [] {
      StepGrows(zone, limits, terms[0], c, path);
      WalkGrows(zone, limits, terms[1..], Step(zone, limits, terms[0], c, path), path);
    } else if c.redirect != "" && !c.hasAll {
      FollowGrows(zone, limits, RedirectTo(c.redirect), CountOne(c.st), path);
    }
  }

  lemma {:induction false} StepGrows(zone: Zone, limits: Limits, term: Term, c: Cursor, path: seq<string>)
    ensures c.st.lookups <= Step(zone, limits, term, c, path).st.lookups
    decreases Rank(limits, path), 1
  {
    if term.Mechanism? && term.kind == Include {
      FollowGrows(zone, limits, IncludeOf(term.argument), Charge(Include, c.st, path), path);
    }
  }

  lemma {:induction false} FollowGrows(zone: Zone, limits: Limits, link: Link, st: State, path: seq<string>)
    ensures st.lookups <= Follow(zone, limits, link, st, path).lookups
    decreases Rank(limits, path), 0
  {
    match Arrive(zone, limits, link, st, path)
    case Done(_) =>
    case Enter(target, terms, st1) => WalkGrows(zone, limits, terms, Open(st1), path + [target]);
  }

  // The depth limit never decides ------------------------------------------------------------------

  /** Every step down costs a lookup, so the lookup limit is always reached first: a walk that allows longer
      chains ends in the same state. */
  lemma {:induction false} DepthNeverDecides(zone: Zone, depth: nat, terms: seq<Term>, c: Cursor,
                                             path: seq<string>)
    requires depth >= SPF_MAX_DEPTH && |path| <= c.st.lookups + 1
    ensures Walk(zone, CUT_OFF, terms, c, path)
         == Walk(zone, Limits(depth, Some(SPF_LOOKUP_LIMIT)), terms, c, path)
    decreases Rank(CUT_OFF, path), 2, |terms|
  {
    if terms != [] {
      DepthNeverDecidesStep(zone, depth, terms[0], c, path);
      StepGrows(zone, CUT_OFF, terms[0], c, path);
      DepthNeverDecides(zone, depth, terms[1..], Step(zone, CUT_OFF, terms[0], c, path), path);
    } else if c.redirect != "" && !c.hasAll {
      DepthNeverDecidesFollow(zone, depth, RedirectTo(c.redirect), CountOne(c.st), path);
    }
  }

  lemma {:induction false} DepthNeverDecidesStep(zone: Zone, depth: nat, term: Term, c: Cursor,
                                                 path: seq<string>)
    requires depth >= SPF_MAX_DEPTH && |path| <= c.st.lookups + 1
    ensures Step(zone, CUT_OFF, term, c, path) == Step(zone, Limits(depth, Some(SPF_LOOKUP_LIMIT)), term, c, path)
    decreases Rank(CUT_OFF, path), 1
  {
    if term.Mechanism? && term.kind == Include {
      DepthNeverDecidesFollow(zone, depth, IncludeOf(term.argument), Charge(Include, c.st, path), path);
    }
  }

  lemma {:induction false} DepthNeverDecidesFollow(zone: Zone, depth: nat, link: Link, st: State,
                                                   path: seq<string>)
    requires depth >= SPF_MAX_DEPTH && |path| <= st.lookups
    ensures Follow(zone, CUT_OFF, link, st, path)
         == Follow(zone, Limits(depth, Some(SPF_LOOKUP_LIMIT)), link, st, path)
    decreases Rank(CUT_OFF, path), 0
  {
    match Arrive(zone, CUT_OFF, link, st, path)
    case Done(_) =>
    case Enter(target, terms, st1) => DepthNeverDecides(zone, depth, terms, Open(st1), path + [target]);
  }

  // The cut-off walk refines the unlimited one ---------------------------------------------------

  /** Either both walks are in the same state within the limit, or both are past it. */
  predicate Agree(cut: State, full: State) {
    || (cut == full && full.lookups <= SPF_LOOKUP_LIMIT)
    || (SPF_LOOKUP_LIMIT < cut.lookups <= full.lookups)
  }

  predicate CursorsAgree(cut: Cursor, full: Cursor) {
    cut.redirect == full.redirect && cut.hasAll == full.hasAll && Agree(cut.st, full.st)
  }

  lemma CountsAgree(cut: State, full: State)
    requires Agree(cut, full)
    ensures Agree(CountOne(cut), CountOne(full))
  {
  }

  lemma {:induction false} WalksAgree(zone: Zone, depth: nat, terms: seq<Term>, cut: Cursor, full: Cursor,
                                      path: seq<string>)
    requires depth >= SPF_MAX_DEPTH && CursorsAgree(cut, full) && |path| <= cut.st.lookups + 1
    ensures Agree(Walk(zone, CUT_OFF, terms, cut, path), Walk(zone, Unlimited(depth), terms, full, path))
    decreases Rank(CUT_OFF, path), 2, |terms|
  {
    if terms != [] {
      var cut1, full1 := Step(zone, CUT_OFF, terms[0], cut, path), Step(zone, Unlimited(depth), terms[0], full, path);
      assert CursorsAgree(cut1, full1) && |path| <= cut1.st.lookups + 1 by {
        StepsAgree(zone, depth, terms[0], cut, full, path);
        StepGrows(zone, CUT_OFF, terms[0], cut, path);
      }
      WalksAgree(zone, depth, terms[1..], cut1, full1, path);
    } else {
      ClosesAgree(zone, depth, cut, full, path);
    }
  }

  lemma {:induction false} ClosesAgree(zone: Zone, depth: nat, cut: Cursor, full: Cursor, path: seq<string>)
    requires depth >= SPF_MAX_DEPTH && CursorsAgree(cut, full) && |path| <= cut.st.lookups + 1
    ensures Agree(Close(zone, CUT_OFF, cut, path), Close(zone, Unlimited(depth), full, path))
    decreases Rank(CUT_OFF, path), 1
  {
    CountsAgree(cut.st, full.st);
    if cut.redirect != "" && !cut.hasAll {
      FollowsAgree(zone, depth, RedirectTo(cut.redirect), CountOne(cut.st), CountOne(full.st), path);
    }
  }

  lemma {:induction false} StepsAgree(zone: Zone, depth: nat, term: Term, cut: Cursor, full: Cursor,
                                      path: seq<string>)
    requires depth >= SPF_MAX_DEPTH && CursorsAgree(cut, full) && |path| <= cut.st.lookups + 1
    ensures CursorsAgree(Step(zone, CUT_OFF, term, cut, path), Step(zone, Unlimited(depth), term, full, path))
    decreases Rank(CUT_OFF, path), 1
  {
    if term.Mechanism? && term.kind == Include {
      FollowsAgree(zone, depth, IncludeOf(term.argument), Charge(Include, cut.st, path),
                   Charge(Include, full.st, path), path);
    }
  }

  lemma {:induction false} FollowsAgree(zone: Zone, depth: nat, link: Link, cut: State, full: State,
                                        path: seq<string>)
    requires depth >= SPF_MAX_DEPTH && Agree(cut, full) && |path| <= cut.lookups
    ensures Agree(Follow(zone, CUT_OFF, link, cut, path), Follow(zone, Unlimited(depth), link, full, path))
    decreases Rank(CUT_OFF, path), 0
  {
    if cut.lookups > SPF_LOOKUP_LIMIT {
      FollowGrows(zone, Unlimited(depth), link, full, path);
    } else {
      assert Arrive(zone, CUT_OFF, link, cut, path) == Arrive(zone, Unlimited(depth), link, full, path);
      match Arrive(zone, CUT_OFF, link, cut, path)
      case Done(_) =>
      case Enter(target, terms, st) =>
        WalksAgree(zone, depth, terms, Open(st), Open(st), path + [target]);
    }
  }

  // The count is the size of the include tree -----------------------------------------------------

  predicate HasAll(terms: seq<Term>) {
    exists k :: 0 <= k < |terms| && terms[k].Mechanism? && terms[k].kind == All
  }

  function LastRedirect(terms: seq<Term>, otherwise: string): string {
    if terms == [] then otherwise
    else LastRedirect(terms[1..], if terms[0].Redirect? then terms[0].value else otherwise)
  }

  /** Lookups below one name: none for a loop or a name without exactly one record, else those of its record. */
  function NameCost(zone: Zone, depth: nat, name: string, path: seq<string>): nat
    decreases Rank(Unlimited(depth), path), 0
  {
    var target := TrimDots(name);
    if !Followable(target) || target in path || |path| > depth then 0
    else
      match zone(target)
      case Single(terms) => RecordCost(zone, depth, terms, path + [target])
      case _ => 0
  }

  function TermCost(zone: Zone, depth: nat, term: Term, path: seq<string>): nat
    decreases Rank(Unlimited(depth), path), 1
  {
    if !term.Mechanism? then 0
    else
      (if Counted(term.kind) then 1 else 0)
      + (if term.kind == Include then NameCost(zone, depth, Before(term.argument, '/'), path) else 0)
  }

  function TermsCost(zone: Zone, depth: nat, terms: seq<Term>, path: seq<string>): nat
    decreases Rank(Unlimited(depth), path), 2, |terms|
  {
    if terms == [] then 0 else TermCost(zone, depth, terms[0], path) + TermsCost(zone, depth, terms[1..], path)
  }

  function RedirectCost(zone: Zone, depth: nat, redirect: string, path: seq<string>): nat
    decreases Rank(Unlimited(depth), path), 1
  {
    if redirect == "" then 0 else 1 + NameCost(zone, depth, redirect, path)
  }

  /** One lookup per counted mechanism and per followed redirect, plus those of every record below. */
  function RecordCost(zone: Zone, depth: nat, terms: seq<Term>, path: seq<string>): nat
    decreases Rank(Unlimited(depth), path), 3
  {
    TermsCost(zone, depth, terms, path)
    + (if HasAll(terms) then 0 else RedirectCost(zone, depth, LastRedirect(terms, ""), path))
  }

  lemma {:induction false} WalkCosts(zone: Zone, depth: nat, terms: seq<Term>, c: Cursor, path: seq<string>)
    ensures Walk(zone, Unlimited(depth), terms, c, path).lookups
         == c.st.lookups + TermsCost(zone, depth, terms, path)
            + (if c.hasAll || HasAll(terms) then 0
               else RedirectCost(zone, depth, LastRedirect(terms, c.redirect), path))
    decreases Rank(Unlimited(depth), path), 2, |terms|
  {
    if terms == [] {
      if c.redirect != "" && !c.hasAll {
        FollowCosts(zone, depth, RedirectTo(c.redirect), CountOne(c.st), path);
      }
    } else {
      var next := Step(zone, Unlimited(depth), terms[0], c, path);
      StepCosts(zone, depth, terms[0], c, path);
      HasAllFirst(terms);
      WalkCosts(zone, depth, terms[1..], next, path);
    }
  }

  lemma HasAllFirst(terms: seq<Term>)
    requires terms != []
    ensures HasAll(terms) <==> (terms[0].Mechanism? && terms[0].kind == All) || HasAll(terms[1..])
  {
    if HasAll(terms) && !(terms[0].Mechanism? && terms[0].kind == All) {
      var k :| 0 <= k < |terms| && terms[k].Mechanism? && terms[k].kind == All;
      assert terms[1..][k - 1] == terms[k];
    }
    if HasAll(terms[1..]) {
      var k :| 0 <= k < |terms| - 1 && terms[1..][k].Mechanism? && terms[1..][k].kind == All;
      assert terms[k + 1].Mechanism?;
    }
  }

  lemma {:induction false} StepCosts(zone: Zone, depth: nat, term: Term, c: Cursor, path: seq<string>)
    ensures var r := Step(zone, Unlimited(depth), term, c, path);
            && r.st.lookups == c.st.lookups + TermCost(zone, depth, term, path)
            && r.hasAll == (c.hasAll || (term.Mechanism? && term.kind == All))
            && r.redirect == if term.Redirect? then term.value else c.redirect
    decreases Rank(Unlimited(depth), path), 1
  {
    if term.Mechanism? && term.kind == Include {
      FollowCosts(zone, depth, IncludeOf(term.argument), Charge(Include, c.st, path), path);
    }
  }

  lemma {:induction false} FollowCosts(zone: Zone, depth: nat, link: Link, st: State, path: seq<string>)
    ensures Follow(zone, Unlimited(depth), link, st, path).lookups
         == st.lookups + NameCost(zone, depth, NameOf(link), path)
    decreases Rank(Unlimited(depth), path), 0
  {
    match Arrive(zone, Unlimited(depth), link, st, path)
    case Done(_) =>
    case Enter(target, terms, st1) => WalkCosts(zone, depth, terms, Open(st1), path + [target]);
  }

  /** The program's walk against the include tree of any zone: never more than the tree holds, past the limit
      exactly when the tree is, and within the limit the same count, errors and incomplete flag. */
  lemma CutOffRefines(zone: Zone, domain: string, terms: seq<Term>, depth: nat)
    requires depth >= SPF_MAX_DEPTH
    ensures var cut := WalkRecord(zone, CUT_OFF, terms, domain);
            var full := WalkRecord(zone, Unlimited(depth), terms, domain);
            var tree := RecordCost(zone, depth, terms, [domain]);
            && cut.lookups <= tree
            && (cut.lookups > SPF_LOOKUP_LIMIT <==> tree > SPF_LOOKUP_LIMIT)
            && (cut.lookups <= SPF_LOOKUP_LIMIT ==> cut == full && cut.lookups == tree)
  {
    WalksAgree(zone, depth, terms, Open(START), Open(START), [domain]);
    WalkCosts(zone, depth, terms, Open(START), [domain]);
  }

  // In a zone with finitely many SPF names the loop check alone ends the walk ----------------------

  ghost predicate CoversZone(zone: Zone, names: set<string>) {
    forall name: string :: zone(name).Single? ==> name in names
  }

  lemma {:induction false} DistinctFits(path: seq<string>, names: set<string>)
    requires Distinct(path) && forall k :: 0 <= k < |path| ==> path[k] in names
    ensures |path| <= |names|
  {
    if path != [] {
      DistinctFits(path[1..], names - {path[0]});
    }
  }

  /** path holds the domain and names of the zone. */
  predicate InZone(names: set<string>, path: seq<string>) {
    path != [] && Distinct(path) && forall k :: 1 <= k < |path| ==> path[k] in names
  }

  lemma {:induction false} WalkStable(zone: Zone, names: set<string>, d: nat, e: nat, terms: seq<Term>,
                                      c: Cursor, path: seq<string>)
    requires CoversZone(zone, names) && InZone(names, path) && d > |names| && e > |names|
    ensures Walk(zone, Unlimited(d), terms, c, path) == Walk(zone, Unlimited(e), terms, c, path)
    decreases Rank(Unlimited(d), path), 2, |terms|
  {
    if terms != [] {
      StepStable(zone, names, d, e, terms[0], c, path);
      WalkStable(zone, names, d, e, terms[1..], Step(zone, Unlimited(d), terms[0], c, path), path);
    } else if c.redirect != "" && !c.hasAll {
      FollowStable(zone, names, d, e, RedirectTo(c.redirect), CountOne(c.st), path);
    }
  }

  lemma {:induction false} StepStable(zone: Zone, names: set<string>, d: nat, e: nat, term: Term, c: Cursor,
                                      path: seq<string>)
    requires CoversZone(zone, names) && InZone(names, path) && d > |names| && e > |names|
    ensures Step(zone, Unlimited(d), term, c, path) == Step(zone, Unlimited(e), term, c, path)
    decreases Rank(Unlimited(d), path), 1
  {
    if term.Mechanism? && term.kind == Include {
      FollowStable(zone, names, d, e, IncludeOf(term.argument), Charge(Include, c.st, path), path);
    }
  }

  lemma {:induction false} FollowStable(zone: Zone, names: set<string>, d: nat, e: nat, link: Link, st: State,
                                        path: seq<string>)
    requires CoversZone(zone, names) && InZone(names, path) && d > |names| && e > |names|
    ensures Follow(zone, Unlimited(d), link, st, path) == Follow(zone, Unlimited(e), link, st, path)
    decreases Rank(Unlimited(d), path), 0
  {
    DistinctFits(path[1..], names);
    match Arrive(zone, Unlimited(d), link, st, path)
    case Done(_) =>
    case Enter(target, terms, st1) =>
      WalkStable(zone, names, d, e, terms, Open(st1), path + [target]);
  }

  // The verdict ------------------------------------------------------------------------------------

  lemma JudgeAgrees(record: string, cut: State, full: State)
    requires Agree(cut, full)
    ensures Judge(record, cut) == Judge(record, full)
  {
  }

  /** Cutting the walk off never changes the verdict on a domain. */
  lemma VerdictExact(resolve: Resolver, domain: string, depth: nat)
    requires depth >= SPF_MAX_DEPTH
    ensures CheckSpf(resolve, CUT_OFF, domain) == CheckSpf(resolve, Unlimited(depth), domain)
  {
    if resolve(domain).Records? {
      var records := SpfRecords(resolve(domain).texts);
      if |records| == 1 {
        var zone, terms := ZoneOf(resolve), Terms(records[0]);
        var cut, full := WalkRecord(zone, CUT_OFF, terms, domain), WalkRecord(zone, Unlimited(depth), terms, domain);
        assert Agree(cut, full) by {
          WalksAgree(zone, depth, terms, Open(START), Open(START), [domain]);
        }
        JudgeAgrees(records[0], cut, full);
      }
    }
  }
}
