/** The repaired DMARC record against the checks that led to the repair. */
module DmarcSoundness {
  import opened Text
  import opened Wrappers
  import opened DmarcRecord
  import opened DmarcRepair
  import opened DmarcGuarantees

  // Report addresses ----------------------------------------------------------------------------------

  /** The value of a report key after the repair names an address of the organisation. */
  lemma RepairedIsOurs(text: string, target: Target, settings: Settings, key: string)
    requires GoodTarget(target)
    requires key == "rua" || (key == "ruf" && settings.WantRuf())
    ensures HasOurs(Uris(Lookup(Again(text, target, settings), key)), target)
  {
    var tags := ParseTags(text);
    AgainLookup(text, target, settings, key);
    match Lookup(tags, key)
    case Some(value) =>
      assert ';' !in value by {
        PartsGood(Split(text, ';'));
        LookupGood(tags, key);
      }
      ReportValue(key, value, target, settings.WantRuf());
      WithAddressGood(value, target);
    case None =>
      OwnUriSettled(target);
      OwnUriIsOurs(target);
      assert IsOurs([OwnUri(target)][0], target);
  }

  lemma {:induction false} DropSpacesAppend(a: string, b: string)
    ensures DropSpaces(a + b) == DropSpaces(a) + DropSpaces(b)
  {
    if a == "" {
      assert a + b == b;
    } else {
      assert (a + b)[1..] == a[1..] + b;
      DropSpacesAppend(a[1..], b);
    }
  }

  lemma DropSpacesOne()
    ensures DropSpaces("1") == "1" && DropSpaces("1:") == "1:"
  {
    assert "1"[1..] == "" && "1:"[1..] == ":" && ":"[1..] == "";
  }

  lemma CoversOne()
    ensures "1" in Split(DropSpaces("1"), ':')
  {
    DropSpacesOne();
    SplitWhole("1", ':');
  }

  /** The repaired options start with 1, so removing spaces keeps it an option. */
  lemma RepairFoCovers(value: string)
    ensures RepairFo(value) != "" && "1" in Split(DropSpaces(RepairFo(value)), ':')
  {
    var items := FoItems(value);
    if |items| == 1 {
      CoversOne();
      assert RepairFo(value) == "1";
    } else {
      var rest := Join(items[1..], ":");
      assert RepairFo(value) == "1" + ":" + rest == "1:" + rest;
      CoversLead(RepairFo(value), rest);
    }
  }

  lemma CoversLead(text: string, rest: string)
    requires text == "1:" + rest
    ensures "1" in Split(DropSpaces(text), ':')
  {
    DropSpacesAppend("1:", rest);
    DropSpacesOne();
    assert "1:" + DropSpaces(rest) == "1" + [':'] + DropSpaces(rest);
    SplitLead(DropSpaces(text), DropSpaces(rest));
  }

  lemma SplitLead(text: string, rest: string)
    requires text == "1" + [':'] + rest
    ensures "1" in Split(text, ':')
  {
    SplitFirst("1", ':', rest);
    assert Split(text, ':')[0] == "1";
  }

  lemma FoRepaired(text: string, target: Target, settings: Settings)
    requires GoodTarget(target) && settings.WantRuf()
    ensures FoCoversAll(Again(text, target, settings))
  {
    AgainLookup(text, target, settings, "fo");
    match Lookup(ParseTags(text), "fo")
    case Some(value) => RepairFoCovers(value);
    case None => CoversOne();
  }

  // Syntax ------------------------------------------------------------------------------------------------

  lemma {:induction false} NoTagProblems(entries: seq<Entry>, seen: set<string>)
    requires DistinctKeys(entries) && forall k :: 0 <= k < |entries| ==> entries[k].key !in seen
    ensures TagProblems(AsTags(entries), seen) == []
  {
    if entries != [] {
      AsTagsFirst(entries, entries[1..]);
      assert AsTags(entries)[1..] == AsTags(entries[1..]);
      NoTagProblems(entries[1..], seen + {entries[0].key});
    }
  }

  lemma {:induction false} ValueProblemsExactly(tags: seq<Tag>, keys: seq<string>, problem: Problem)
    ensures problem in ValueProblems(tags, keys)
       <==> problem.InvalidValue? && problem.key in keys && Lookup(tags, problem.key) == Some(problem.value)
            && !IsValid(problem.key, problem.value)
  {
    if keys != [] {
      ValueProblemsExactly(tags, keys[1..], problem);
    }
  }

  lemma {:induction false} UriProblemsExactly(key: string, uris: seq<string>, problem: Problem)
    ensures problem in UriProblems(key, uris)
       <==> problem.NotMailto? && problem.key == key && problem.uri in uris && !IsReportUri(problem.uri)
  {
    if uris != [] {
      UriProblemsExactly(key, uris[1..], problem);
    }
  }

  lemma OwnUriIsReport(target: Target)
    ensures IsReportUri(OwnUri(target))
  {
    LowerPrefix("mailto:", target.reportAddress);
  }

  lemma StripTwice(part: string)
    ensures Strip(Strip(part)) == Strip(part)
  {
  }

  lemma StrippedOption(part: string)
    ensures IsFoOption(Strip(part)) == IsFoOption(part)
  {
    StripTwice(part);
  }

  lemma {:induction false} StripAllValid(parts: seq<string>, ok: string -> bool)
    requires All(parts, ok) && forall part :: ok(part) ==> ok(Strip(part))
    ensures All(StripAll(parts), ok)
  {
    if parts != [] {
      StripAllValid(parts[1..], ok);
    }
  }

  lemma {:induction false} OtherOptionsValid(parts: seq<string>, ok: string -> bool)
    requires All(parts, ok)
    ensures All(OtherOptions(parts), ok)
  {
    if parts != [] {
      OtherOptionsValid(parts[1..], ok);
    }
  }

  lemma OneIsOption()
    ensures IsFoOption("1") && IsFo("1")
  {
    SplitWhole("1", ':');
    OneIsName();
    FirstValid("1", [], IsFoOption);
    assert ["1"] + [] == ["1"];
  }

  lemma OneIsName()
    ensures IsFoOption("1")
  {
    OneIsItem();
    LowerFixed("1");
    assert Lower(Strip("1")) == "1";
  }

  lemma FirstValid(first: string, rest: seq<string>, ok: string -> bool)
    requires ok(first) && All(rest, ok)
    ensures All([first] + rest, ok)
  {
  }

  /** Valid options stay valid. */
  lemma RepairFoValid(value: string)
    requires IsFo(value) && ';' !in value
    ensures IsFo(RepairFo(value))
  {
    var ok := IsFoOption;
    forall part | ok(part) ensures ok(Strip(part)) {
      StrippedOption(part);
    }
    StripAllValid(Split(value, ':'), ok);
    OtherOptionsValid(StripAll(Split(value, ':')), ok);
    OneIsOption();
    FirstValid("1", OtherOptions(StripAll(Split(value, ':'))), ok);
    RepairFoGood(value);
  }

  /** A problem of the suggestion is one the record had before: the same value, or the same option list. */
  predicate Inherited(problem: Problem, before: seq<Problem>) {
    match problem
    case InvalidValue(key, value) =>
      if key == "fo" then exists k :: 0 <= k < |before| && before[k].InvalidValue? && before[k].key == "fo"
      else problem in before
    case NotMailto(_, _) => problem in before
    case _ => false
  }

  /** A tag the repair leaves alone. */
  predicate IsPlain(key: string) { !Touched(key, true) && key != "p" }

  predicate PlainButFo(keys: seq<string>) {
    "fo" in keys && forall k :: 0 <= k < |keys| ==> keys[k] == "fo" || IsPlain(keys[k])
  }

  lemma CheckedKeys()
    ensures PlainButFo(CHECKED_KEYS)
  {
    assert CHECKED_KEYS[6] == "fo";
  }

  lemma FoStaysValid(written: string, repaired: string, wantRuf: bool)
    requires ';' !in written && IsFo(written)
    requires repaired == if wantRuf then RepairFo(written) else written
    ensures IsFo(repaired)
  {
    RepairFoValid(written);
  }

  lemma FoValue(written: string, target: Target, wantRuf: bool)
    ensures RepairValue("fo", written, target, wantRuf) == if wantRuf then RepairFo(written) else written
  {
  }

  lemma AddedFo(target: Target, wantRuf: bool)
    ensures Added("fo", target, wantRuf) == if wantRuf then Some("1") else None
  {
  }

  lemma InvalidFo(text: string, target: Target, settings: Settings, value: string)
    requires GoodTarget(target)
    ensures Lookup(Again(text, target, settings), "fo") == Some(value) && !IsFo(value) ==>
              Lookup(ParseTags(text), "fo").Some? && !IsFo(Lookup(ParseTags(text), "fo").value)
  {
    AgainLookup(text, target, settings, "fo");
    match Lookup(ParseTags(text), "fo")
    case None =>
      AddedFo(target, settings.WantRuf());
      OneIsOption();
    case Some(written) =>
      assert ';' !in written by {
        PartsGood(Split(text, ';'));
        LookupGood(ParseTags(text), "fo");
      }
      if IsFo(written) {
        FoValue(written, target, settings.WantRuf());
        FoStaysValid(written, RepairValue("fo", written, target, settings.WantRuf()), settings.WantRuf());
      }
  }

  lemma InvalidInherited(text: string, target: Target, settings: Settings, keys: seq<string>, problem: Problem)
    requires GoodTarget(target) && PlainButFo(keys)
    ensures problem in ValueProblems(Again(text, target, settings), keys) ==>
              Inherited(problem, ValueProblems(ParseTags(text), keys))
  {
    var tags, again := ParseTags(text), Again(text, target, settings);
    if problem in ValueProblems(again, keys) {
      ProblemKey(again, keys, problem);
      if problem.key == "fo" {
        InvalidFo(text, target, settings, problem.value);
        InvalidFoListed(tags, keys, problem);
      } else {
        PlainKept(text, target, settings, problem.key);
        SameProblem(again, tags, keys, problem);
      }
    }
  }

  lemma ProblemKey(tags: seq<Tag>, keys: seq<string>, problem: Problem)
    requires problem in ValueProblems(tags, keys)
    ensures problem.InvalidValue? && problem.key in keys
    ensures problem.key == "fo" ==> Lookup(tags, "fo") == Some(problem.value) && !IsFo(problem.value)
  {
    ValueProblemsExactly(tags, keys, problem);
  }

  lemma SameProblem(tags: seq<Tag>, before: seq<Tag>, keys: seq<string>, problem: Problem)
    requires problem in ValueProblems(tags, keys)
    requires problem.InvalidValue? && Lookup(tags, problem.key) == Lookup(before, problem.key)
    ensures problem in ValueProblems(before, keys)
  {
    ValueProblemsExactly(tags, keys, problem);
    ValueProblemsExactly(before, keys, problem);
  }

  lemma PlainKept(text: string, target: Target, settings: Settings, key: string)
    requires GoodTarget(target) && IsPlain(key)
    ensures Lookup(Again(text, target, settings), key) == Lookup(ParseTags(text), key)
  {
    TagKept(text, target, settings, key);
  }

  lemma InvalidFoListed(tags: seq<Tag>, keys: seq<string>, problem: Problem)
    requires problem.InvalidValue? && problem.key == "fo" && "fo" in keys
    ensures Lookup(tags, "fo").Some? && !IsFo(Lookup(tags, "fo").value) ==>
              Inherited(problem, ValueProblems(tags, keys))
  {
    if Lookup(tags, "fo").Some? && !IsFo(Lookup(tags, "fo").value) {
      var written := InvalidValue("fo", Lookup(tags, "fo").value);
      var before := ValueProblems(tags, keys);
      ValueProblemsExactly(tags, keys, written);
      var k :| 0 <= k < |before| && before[k] == written;
    }
  }

  lemma UriInherited(text: string, target: Target, settings: Settings, key: string, problem: Problem)
    requires GoodTarget(target) && IsReportKey(key)
    ensures problem in UriProblems(key, Uris(Lookup(Again(text, target, settings), key))) ==>
              problem in UriProblems(key, Uris(Lookup(ParseTags(text), key)))
  {
    var before, after := Uris(Lookup(ParseTags(text), key)), Uris(Lookup(Again(text, target, settings), key));
    UriProblemsExactly(key, after, problem);
    UriProblemsExactly(key, before, problem);
    OwnUriIsReport(target);
    if problem.NotMailto? {
      OnlyOwnAdded(text, target, settings, key, problem.uri);
    }
  }

  lemma RepairedUriOwn(key: string, written: string, target: Target, wantRuf: bool, uri: string)
    requires GoodTarget(target) && IsReportKey(key) && ';' !in written
    requires uri in Uris(Some(RepairValue(key, written, target, wantRuf)))
    ensures uri in Uris(Some(written)) || uri == OwnUri(target)
  {
    ReportValue(key, written, target, wantRuf);
    WithAddressGood(written, target);
  }

  lemma AddedUriOwn(key: string, target: Target, wantRuf: bool, uri: string)
    requires GoodTarget(target) && IsReportKey(key) && uri in Uris(Added(key, target, wantRuf))
    ensures uri == OwnUri(target)
  {
    NoUris();
    OwnUriSettled(target);
    AddedIs(target, wantRuf);
  }

  lemma WrittenGood(text: string, key: string)
    ensures Lookup(ParseTags(text), key).Some? ==> ';' !in Lookup(ParseTags(text), key).value
  {
    PartsGood(Split(text, ';'));
    LookupGood(ParseTags(text), key);
  }

  /** The repair brings no destination but the own address. */
  lemma OnlyOwnAdded(text: string, target: Target, settings: Settings, key: string, uri: string)
    requires GoodTarget(target) && IsReportKey(key)
    ensures uri in Uris(Lookup(Again(text, target, settings), key)) ==>
              uri in Uris(Lookup(ParseTags(text), key)) || uri == OwnUri(target)
  {
    if uri in Uris(Lookup(Again(text, target, settings), key)) {
      AgainLookup(text, target, settings, key);
      WrittenGood(text, key);
      match Lookup(ParseTags(text), key)
      case None => AddedUriOwn(key, target, settings.WantRuf(), uri);
      case Some(written) => RepairedUriOwn(key, written, target, settings.WantRuf(), uri);
    }
  }

  // The guarantee -----------------------------------------------------------------------------------------

  lemma StartsExactly(text: string, target: Target, settings: Settings)
    requires VersionLeads(ParseTags(text)) && GoodTarget(target)
    ensures IsExactDmarc(Print(Repair(ParseTags(text), target, settings.WantRuf())))
  {
    var r := Repair(ParseTags(text), target, settings.WantRuf());
    AgainReady(text, target, settings);
    assert r[0] == Entry("v", "DMARC1") by {
      assert RepairValue(r[0].key, r[0].value, target, settings.WantRuf()) == r[0].value;
    }
    FirstPart(r, Print(r));
  }

  lemma FirstPart(entries: seq<Entry>, text: string)
    requires entries != [] && Printable(entries) && text == Print(entries)
    ensures ParsePart(Split(text, ';')[0]) == Tag(entries[0].key, Some(entries[0].value))
  {
    var part := PrintEntry(entries[0]);
    assert "" + part == part && "" + text == text;
    ParsePrinted(entries[0], "");
    if |entries| == 1 {
      SplitWhole(part, ';');
    } else {
      PrintFirst(entries, "", text, part, " " + Print(entries[1..]));
      SplitFirst(part, ';', " " + Print(entries[1..]));
    }
  }

  /** No tag stands twice and none lacks its =. */
  predicate WellBuilt(problems: seq<Problem>) {
    forall k :: 0 <= k < |problems| ==> !problems[k].Duplicate? && !problems[k].NoEquals?
  }

  lemma SyntaxInherited(text: string, target: Target, settings: Settings, problem: Problem)
    requires VersionLeads(ParseTags(text)) && GoodTarget(target)
    ensures problem in SyntaxProblems(Again(text, target, settings)) ==>
              Inherited(problem, SyntaxProblems(ParseTags(text)))
  {
    var tags, again := ParseTags(text), Again(text, target, settings);
    AgainReady(text, target, settings);
    NoTagProblems(Repair(tags, target, settings.WantRuf()), {});
    if problem in ValueProblems(again, CHECKED_KEYS) {
      CheckedKeys();
      InvalidInherited(text, target, settings, CHECKED_KEYS, problem);
      InheritedInPart(problem, TagProblems(tags, {}), ValueProblems(tags, CHECKED_KEYS), AddressProblems(tags));
    } else {
      AddressInherited(text, target, settings, problem);
    }
  }

  lemma AddressInherited(text: string, target: Target, settings: Settings, problem: Problem)
    requires GoodTarget(target)
    ensures problem in AddressProblems(Again(text, target, settings)) ==>
              problem.NotMailto? && problem in AddressProblems(ParseTags(text))
  {
    var again := Again(text, target, settings);
    if problem in AddressProblems(again) {
      var key := if problem in UriProblems("rua", Uris(Lookup(again, "rua"))) then "rua" else "ruf";
      UriProblemsExactly(key, Uris(Lookup(again, key)), problem);
      UriInherited(text, target, settings, key, problem);
    }
  }

  lemma InheritedInPart(problem: Problem, a: seq<Problem>, b: seq<Problem>, c: seq<Problem>)
    requires Inherited(problem, b)
    ensures Inherited(problem, a + b + c)
  {
    var all := a + b + c;
    assert forall k :: 0 <= k < |b| ==> all[|a| + k] == b[k];
    if problem.InvalidValue? && problem.key == "fo" {
      var k :| 0 <= k < |b| && b[k].InvalidValue? && b[k].key == "fo";
      assert all[|a| + k] == b[k];
    }
  }

  /** The suggestion is exact, has the report address in rua, and in ruf with fo=1 where failure reports are wanted; it
      has no tag twice and none without =; a record without syntax problems keeps none. */
  predicate Repaired(text: string, target: Target, settings: Settings) {
    var suggestion := Suggest(ParseTags(text), target, settings);
    suggestion.Some? &&
    var again := ParseTags(suggestion.value);
    && IsExactDmarc(suggestion.value)
    && CheckRua(again, target) == Ok
    && (settings.WantRuf() ==> CheckRuf(again, target, settings) == Some(Ok))
    && WellBuilt(SyntaxProblems(again))
    && (SyntaxProblems(ParseTags(text)) == [] ==> SyntaxProblems(again) == [])
  }

  /** The repair does for every live DMARC record what the failing checks asked for. */
  lemma RepairIsSound(text: string, target: Target, settings: Settings)
    requires GoodTarget(target)
    ensures IsDmarc(text) ==> Repaired(text, target, settings)
  {
    if IsDmarc(text) {
      DmarcLeads(text);
      LeadingRepaired(text, target, settings);
    }
  }

  lemma LeadingRepaired(text: string, target: Target, settings: Settings)
    requires VersionLeads(ParseTags(text)) && GoodTarget(target)
    ensures Repaired(text, target, settings)
  {
    StartsExactly(text, target, settings);
    RepairedIsOurs(text, target, settings, "rua");
    if settings.WantRuf() {
      RepairedIsOurs(text, target, settings, "ruf");
      FoRepaired(text, target, settings);
    }
    var problems := SyntaxProblems(Again(text, target, settings));
    forall k | 0 <= k < |problems| ensures Inherited(problems[k], SyntaxProblems(ParseTags(text))) {
      SyntaxInherited(text, target, settings, problems[k]);
    }
    InheritedFromNone(problems, SyntaxProblems(ParseTags(text)));
  }

  lemma InheritedFromNone(problems: seq<Problem>, before: seq<Problem>)
    requires forall k :: 0 <= k < |problems| ==> Inherited(problems[k], before)
    ensures WellBuilt(problems) && (before == [] ==> problems == [])
  {
    if problems != [] {
      assert Inherited(problems[0], before);
    }
  }
}
