/** What the checks of a DMARC record accept and what they refuse. */
module DmarcChecks {
  import opened Text
  import opened Wrappers
  import opened DmarcRecord
  import opened DmarcRepair
  import opened DmarcGuarantees
  import opened DmarcSoundness

  // The address in a URI ------------------------------------------------------------------------------------

  /** A mailto URI of an address, in any letter case, with a size limit behind !, with fields behind ?, or with
      neither. */
  predicate NamesAddress(uri: string, address: string) {
    var end := 7 + |address|;
    && PlainAddress(address) && '%' !in uri && |uri| >= end
    && Lower(uri[..7]) == "mailto:" && Lower(uri[7..end]) == address
    && (|uri| > end ==> uri[end] == '!' || uri[end] == '?')
  }

  predicate IsMailto(uri: string) { |uri| >= 7 && Lower(uri[..7]) == "mailto:" }

  ghost predicate PlainDecoding(target: Target) {
    forall text: string :: '%' !in text ==> target.unquote(text) == text
  }

  lemma LowerKinds(text: string)
    ensures NoControls(Lower(text)) ==> NoControls(text)
    ensures IsWord(Lower(text)) ==> IsWord(text)
    ensures forall c :: !('a' <= c <= 'z') && c in text && LowerChar(c) == c ==> c in Lower(text)
  {
    forall k | 0 <= k < |text| ensures IsSpace(text[k]) ==> IsSpace(Lower(text)[k]) {
    }
    forall c | c in text && LowerChar(c) == c ensures c in Lower(text) {
      var k :| 0 <= k < |text| && text[k] == c;
      assert Lower(text)[k] == c;
    }
    if NoControls(Lower(text)) {
      forall k | 0 <= k < |text| ensures !IsControl(text[k]) {
        assert !IsControl(Lower(text)[k]);
      }
    }
    if IsWord(Lower(text)) {
      forall k | 0 <= k < |text| ensures !IsSpace(text[k]) {
        assert !IsSpace(Lower(text)[k]);
      }
    }
  }

  lemma CleanCased(text: string, address: string)
    requires PlainAddress(address) && Lower(text) == address
    ensures CleanAddress(text) == address
  {
    LowerKinds(text);
    NothingToDrop(text);
    WordLengthWhole(text);
    assert text[..|text|] == text && text[|text|..] == "";
    assert Words(text) == [text] + Words("");
  }

  lemma CutsAddress(text: string, tail: string)
    requires '!' !in text && '?' !in text && (tail == "" || tail[0] == '!' || tail[0] == '?')
    ensures Before(Before(text + tail, '!'), '?') == text
  {
    BeforeName(text, tail, '!');
    BeforeName(text, Before(tail, '!'), '?');
    assert tail == "" || tail[0] == '!' ==> Before(tail, '!') == "";
    assert Before(Before(tail, '!'), '?') == "";
    assert text + "" == text;
  }

  lemma TailIgnored(text: string, tail: string, rest: string, address: string)
    requires PlainAddress(address) && Lower(text) == address && rest == text + tail
    requires tail == "" || tail[0] == '!' || tail[0] == '?'
    ensures CleanAddress(Before(Before(rest, '!'), '?')) == address
  {
    LowerKinds(text);
    CutsAddress(text, tail);
    CleanCased(text, address);
  }

  lemma NoEscapes(uri: string, rest: string)
    requires |uri| >= 7 && rest == uri[7..] && '%' !in uri
    ensures '%' !in rest
  {
  }

  /** The address of a mailto URI is read in lower case, without what follows it. */
  lemma AddressRead(uri: string, address: string, target: Target)
    requires NamesAddress(uri, address) && PlainDecoding(target)
    ensures Mailto(uri, target.unquote) == Some(address)
  {
    var end, rest := 7 + |address|, uri[7..];
    var text, tail := uri[7..end], uri[end..];
    assert rest == text + tail;
    TailIgnored(text, tail, rest, address);
    NoEscapes(uri, rest);
    MailtoOf(uri, rest, address, target);
  }

  lemma MailtoOf(uri: string, rest: string, address: string, target: Target)
    requires IsMailto(uri) && rest == uri[7..] && target.unquote(rest) == rest && address != ""
    requires CleanAddress(Before(Before(rest, '!'), '?')) == address
    ensures Mailto(uri, target.unquote) == Some(address)
  {
    MailtoStarts(uri);
  }

  lemma MailtoStarts(uri: string)
    ensures IsMailto(uri) <==> StartsWith(Lower(uri), "mailto:")
  {
    if |uri| >= 7 {
      assert Lower(uri)[..7] == Lower(uri[..7]);
    }
  }

  // Lists of URIs -----------------------------------------------------------------------------------------------

  /** Each URI names the address beside it, or is none of mailto. */
  predicate NameAddresses(uris: seq<string>, addresses: seq<Option<string>>) {
    && |addresses| == |uris|
    && forall k :: 0 <= k < |uris| ==>
         match addresses[k]
         case Some(address) => NamesAddress(uris[k], address)
         case None => !IsMailto(uris[k])
  }

  predicate SomeActive(addresses: seq<Option<string>>, active: set<string>) {
    exists k :: 0 <= k < |addresses| && addresses[k].Some? && addresses[k].value in active
  }

  lemma OursExactly(uris: seq<string>, addresses: seq<Option<string>>, target: Target)
    requires NameAddresses(uris, addresses) && PlainDecoding(target)
    ensures HasOurs(uris, target) <==> SomeActive(addresses, target.addresses)
  {
    forall k | 0 <= k < |uris|
      ensures IsOurs(uris[k], target) <==> addresses[k].Some? && addresses[k].value in target.addresses
    {
      match addresses[k]
      case Some(address) => AddressRead(uris[k], address, target);
      case None => MailtoStarts(uris[k]);
    }
  }

  /** The record lists these under the key; without the key, or with an empty value, it lists none. */
  predicate ListsUris(entries: seq<Entry>, key: string, uris: seq<string>) {
    && AreItems(uris, ',')
    && match Find(entries, key)
       case Some(value) => value == Join(uris, ",")
       case None => uris == []
  }

  lemma ListRead(entries: seq<Entry>, text: string, key: string, uris: seq<string>)
    requires entries != [] && Printable(entries) && text == Print(entries) && ListsUris(entries, key, uris)
    ensures Uris(Lookup(ParseTags(text), key)) == uris
  {
    assert "" + text == text;
    PrintRoundTrip(entries, "", text);
    LookupEntries(entries, key);
    NoUris();
    if uris != [] {
      ListRoundTrip(uris, ',');
    }
  }

  /** A record counts as one of DMARC exactly when it starts with the version, in any letter case; exactly as it should
      when the case is right. */
  lemma VersionExactly(entries: seq<Entry>, text: string)
    requires entries != [] && Printable(entries) && text == Print(entries)
    ensures IsDmarc(text) <==> entries[0].key == "v" && Lower(entries[0].value) == "dmarc1"
    ensures IsExactDmarc(text) <==> entries[0] == Entry("v", "DMARC1")
  {
    FirstPart(entries, text);
  }

  // Aggregate reports -------------------------------------------------------------------------------------------------

  /** A record passes the check of rua exactly when one of the addresses it lists there is active; one without rua, with
      an empty one, or with foreign destinations only fails. */
  lemma RuaExactly(entries: seq<Entry>, text: string, uris: seq<string>, addresses: seq<Option<string>>, target: Target)
    requires entries != [] && Printable(entries) && text == Print(entries) && ListsUris(entries, "rua", uris)
    requires NameAddresses(uris, addresses) && PlainDecoding(target)
    ensures CheckRua(ParseTags(text), target) == if SomeActive(addresses, target.addresses) then Ok else Error
  {
    ListRead(entries, text, "rua", uris);
    OursExactly(uris, addresses, target);
  }

  /** For every text: the repair adds the own address to rua exactly when the check fails, and nothing else ever. */
  lemma RuaRepaired(text: string, target: Target, settings: Settings)
    requires GoodTarget(target)
    ensures Uris(Lookup(Again(text, target, settings), "rua"))
         == Uris(Lookup(ParseTags(text), "rua"))
            + if CheckRua(ParseTags(text), target) == Error then [OwnUri(target)] else []
  {
    ReportRepaired(text, target, settings, "rua");
  }

  lemma ReportRepaired(text: string, target: Target, settings: Settings, key: string)
    requires GoodTarget(target) && (key == "rua" || (key == "ruf" && settings.WantRuf()))
    ensures var before := Uris(Lookup(ParseTags(text), key));
            Uris(Lookup(Again(text, target, settings), key))
            == before + if HasOurs(before, target) then [] else [OwnUri(target)]
  {
    AgainLookup(text, target, settings, key);
    WrittenGood(text, key);
    match Lookup(ParseTags(text), key)
    case Some(value) => ValueRepaired(key, value, target, settings.WantRuf());
    case None => ValueAdded(key, target, settings.WantRuf());
  }

  /** The repaired list is the old one, with the own address unless an active one was there. */
  lemma ValueRepaired(key: string, value: string, target: Target, wantRuf: bool)
    requires GoodTarget(target) && ';' !in value && (key == "rua" || (key == "ruf" && wantRuf))
    ensures var before := Uris(Some(value));
            Uris(Some(RepairValue(key, value, target, wantRuf)))
            == before + if HasOurs(before, target) then [] else [OwnUri(target)]
  {
    ReportValue(key, value, target, wantRuf);
    WithAddressGood(value, target);
  }

  lemma ValueAdded(key: string, target: Target, wantRuf: bool)
    requires GoodTarget(target) && (key == "rua" || (key == "ruf" && wantRuf))
    ensures Uris(None) == [] && !HasOurs([], target) && Uris(Added(key, target, wantRuf)) == [OwnUri(target)]
  {
    NoUris();
    OwnUriSettled(target);
    AddedIs(target, wantRuf);
  }

  // Failure reports ---------------------------------------------------------------------------------------------------

  predicate NoSpace(parts: seq<string>) {
    forall k :: 0 <= k < |parts| ==> ' ' !in parts[k]
  }

  /** The record gives these failure options. */
  predicate ListsOptions(entries: seq<Entry>, options: seq<string>) {
    && AreItems(options, ':') && NoSpace(options)
    && match Find(entries, "fo")
       case Some(value) => value == Join(options, ":")
       case None => options == []
  }

  lemma {:induction false} NoSpaceJoin(parts: seq<string>)
    requires NoSpace(parts)
    ensures ' ' !in Join(parts, ":")
  {
    if |parts| > 1 {
      NoSpaceJoin(parts[1..]);
    }
  }

  lemma {:induction false} NothingToDropIn(text: string)
    requires ' ' !in text
    ensures DropSpaces(text) == text
  {
    if text != "" {
      NothingToDropIn(text[1..]);
    }
  }

  lemma {:induction false} JoinNotEmpty(items: seq<string>)
    requires items != [] && AreItems(items, ':')
    ensures Join(items, ":") != ""
  {
  }

  lemma OptionsRead(entries: seq<Entry>, text: string, options: seq<string>)
    requires entries != [] && Printable(entries) && text == Print(entries) && ListsOptions(entries, options)
    ensures FoCoversAll(ParseTags(text)) <==> "1" in options
  {
    assert "" + text == text;
    PrintRoundTrip(entries, "", text);
    LookupEntries(entries, "fo");
    if options == [] {
      NothingToDropIn("0");
      SplitWhole("0", ':');
    } else {
      JoinNotEmpty(options);
      NoSpaceJoin(options);
      NothingToDropIn(Join(options, ":"));
      SplitJoin(options, ':');
    }
  }

  /** The check of ruf gives nothing when failure reports are off; it complains when no listed address is active, the
      more when they are to be suggested; it notes the lack of the option 1; and otherwise passes. */
  lemma RufExactly(entries: seq<Entry>, text: string, uris: seq<string>, addresses: seq<Option<string>>,
                   options: seq<string>, target: Target, settings: Settings)
    requires entries != [] && Printable(entries) && text == Print(entries) && ListsUris(entries, "ruf", uris)
    requires NameAddresses(uris, addresses) && PlainDecoding(target) && ListsOptions(entries, options)
    ensures CheckRuf(ParseTags(text), target, settings)
         == if !settings.failureReports then None
            else if !SomeActive(addresses, target.addresses) then
              Some(if settings.suggestFailureReports then Warning else Info)
            else if "1" !in options then Some(Info)
            else Some(Ok)
  {
    ListRead(entries, text, "ruf", uris);
    OursExactly(uris, addresses, target);
    OptionsRead(entries, text, options);
  }

  /** For every text: where failure reports are suggested, the repair adds the own address to ruf exactly when the check
      warns; where they are not, it leaves ruf alone. */
  lemma RufRepaired(text: string, target: Target, settings: Settings)
    requires GoodTarget(target)
    ensures settings.WantRuf() ==>
              Uris(Lookup(Again(text, target, settings), "ruf"))
              == Uris(Lookup(ParseTags(text), "ruf"))
                 + if CheckRuf(ParseTags(text), target, settings) == Some(Warning) then [OwnUri(target)] else []
    ensures !settings.WantRuf() ==>
              Lookup(Again(text, target, settings), "ruf") == Lookup(ParseTags(text), "ruf")
              && CheckRuf(ParseTags(text), target, settings) != Some(Warning)
  {
    RufWarns(ParseTags(text), target, settings);
    if settings.WantRuf() {
      ReportRepaired(text, target, settings, "ruf");
    } else {
      TagKept(text, target, settings, "ruf");
    }
  }

  lemma RufWarns(tags: seq<Tag>, target: Target, settings: Settings)
    ensures CheckRuf(tags, target, settings) == Some(Warning)
       <==> settings.WantRuf() && !HasOurs(Uris(Lookup(tags, "ruf")), target)
  {
  }

  // Syntax ------------------------------------------------------------------------------------------------------------

  predicate Twice(tags: seq<Tag>, key: string) {
    exists i, j :: 0 <= i < j < |tags| && tags[i].key == key && tags[j].key == key
  }

  predicate WithoutEquals(tags: seq<Tag>, key: string) {
    exists i :: 0 <= i < |tags| && tags[i].key == key && tags[i].value.None?
  }

  predicate Named(tags: seq<Tag>, key: string) {
    exists i :: 0 <= i < |tags| && tags[i].key == key
  }

  lemma TwiceFirst(tags: seq<Tag>, rest: seq<Tag>, key: string)
    requires tags != [] && rest == tags[1..]
    ensures Twice(tags, key) <==> Twice(rest, key) || (tags[0].key == key && Named(rest, key))
    ensures WithoutEquals(tags, key) <==> WithoutEquals(rest, key) || (tags[0].key == key && tags[0].value.None?)
    ensures Named(tags, key) <==> Named(rest, key) || tags[0].key == key
  {
    assert forall i :: 0 < i < |tags| ==> tags[i] == rest[i - 1];
    assert forall i :: 0 <= i < |rest| ==> rest[i] == tags[i + 1];
    if Twice(rest, key) {
      var i, j :| 0 <= i < j < |rest| && rest[i].key == key && rest[j].key == key;
      assert tags[i + 1].key == key && tags[j + 1].key == key;
    }
    if Named(rest, key) {
      var j :| 0 <= j < |rest| && rest[j].key == key;
      assert tags[j + 1].key == key;
    }
    if WithoutEquals(rest, key) {
      var i :| 0 <= i < |rest| && rest[i].key == key && rest[i].value.None?;
      assert tags[i + 1].key == key;
    }
  }

  lemma {:induction false} TagProblemsExactly(tags: seq<Tag>, seen: set<string>, problem: Problem)
    ensures problem in TagProblems(tags, seen)
       <==> (|| (problem.Duplicate?
                 && (Twice(tags, problem.key) || (problem.key in seen && Named(tags, problem.key))))
             || (problem.NoEquals? && WithoutEquals(tags, problem.key)))
  {
    if tags != [] {
      TagProblemsExactly(tags[1..], seen + {tags[0].key}, problem);
      if problem.Duplicate? || problem.NoEquals? {
        TwiceFirst(tags, tags[1..], problem.key);
      }
    }
  }

  predicate IsProblem(tags: seq<Tag>, problem: Problem) {
    match problem
    case Duplicate(key) => Twice(tags, key)
    case NoEquals(key) => WithoutEquals(tags, key)
    case InvalidValue(key, value) =>
      && key in ["sp", "np", "t", "pct", "adkim", "aspf", "fo", "ri", "psd"]
      && Lookup(tags, key) == Some(value) && !IsValid(key, value)
    case NotMailto(key, uri) =>
      && (key == "rua" || key == "ruf")
      && uri in Uris(Lookup(tags, key)) && !Reportable(uri)
  }

  /** The problems of a record are: each key that stands twice, each part without an equals sign, each value its key
      does not allow, and each destination of reports that is neither a mail address nor a web address. */
  lemma SyntaxExactly(tags: seq<Tag>, problem: Problem)
    ensures problem in SyntaxProblems(tags) <==> IsProblem(tags, problem)
  {
    TagProblemsExactly(tags, {}, problem);
    ValueProblemsExactly(tags, CHECKED_KEYS, problem);
    UriProblemsExactly("rua", Uris(Lookup(tags, "rua")), problem);
    UriProblemsExactly("ruf", Uris(Lookup(tags, "ruf")), problem);
    if problem.NotMailto? {
      ReportableExactly(problem.uri);
    }
  }

  predicate HasScheme(uri: string, scheme: string) {
    |uri| >= |scheme| && Lower(uri[..|scheme|]) == scheme
  }

  predicate Reportable(uri: string) {
    HasScheme(uri, "mailto:") || HasScheme(uri, "https:") || HasScheme(uri, "http:")
  }

  lemma SchemeStarts(uri: string, scheme: string)
    ensures HasScheme(uri, scheme) <==> StartsWith(Lower(uri), scheme)
  {
    if |uri| >= |scheme| {
      assert Lower(uri)[..|scheme|] == Lower(uri[..|scheme|]);
    }
  }

  lemma ReportableExactly(uri: string)
    ensures Reportable(uri) <==> IsReportUri(uri)
  {
    SchemeStarts(uri, "mailto:");
    SchemeStarts(uri, "https:");
    SchemeStarts(uri, "http:");
  }

  // Which values a key allows -----------------------------------------------------------------------------------

  lemma LowerOne(value: string, c: char)
    requires 'a' <= c <= 'z'
    ensures Lower(value) == [c] <==> value == [c] || value == [UpperChar(c)]
  {
    if Lower(value) == [c] {
      assert Lower(value)[0] == c && |value| == 1;
      assert value == [value[0]];
    }
  }

  /** The keys with a few words to choose from. */
  lemma WordsExactly(value: string)
    ensures IsValid("sp", value) <==> Lower(value) in ["none", "quarantine", "reject"]
    ensures IsValid("np", value) <==> Lower(value) in ["none", "quarantine", "reject"]
    ensures IsValid("t", value) <==> value in ["y", "Y", "n", "N"]
    ensures IsValid("adkim", value) <==> value in ["r", "R", "s", "S"]
    ensures IsValid("aspf", value) <==> value in ["r", "R", "s", "S"]
    ensures IsValid("psd", value) <==> value in ["y", "Y", "n", "N", "u", "U"]
  {
    LowerOne(value, 'y');
    LowerOne(value, 'n');
    LowerOne(value, 'r');
    LowerOne(value, 's');
    LowerOne(value, 'u');
  }

  function Decimal(n: nat): (digits: string)
    ensures digits != "" && forall k :: 0 <= k < |digits| ==> '0' <= digits[k] <= '9'
  {
    var last := [(n % 10 + '0' as int) as char];
    if n < 10 then last else Decimal(n / 10) + last
  }

  lemma {:induction false} DecimalValue(n: nat)
    ensures ToInt(Decimal(n)) == n
  {
    var text := Decimal(n);
    var last := (n % 10 + '0' as int) as char;
    if n < 10 {
      assert text == [last] && text[..0] == "";
    } else {
      DecimalValue(n / 10);
      assert text[..|text| - 1] == Decimal(n / 10) && text[|text| - 1] == last;
    }
  }

  function Power(k: nat): nat { if k == 0 then 1 else 10 * Power(k - 1) }

  lemma {:induction false} DecimalSize(n: nat, k: nat)
    requires n < Power(k) && k > 0
    ensures |Decimal(n)| <= k
  {
    if n >= 10 {
      assert k > 1 by {
        assert Power(1) == 10 * Power(0);
      }
      DecimalSize(n / 10, k - 1);
    }
  }

  lemma TenDigits()
    ensures Power(10) == 10_000_000_000
  {
    assert Power(5) == 100_000;
    assert Power(10) == 100_000 * Power(5);
  }

  /** A percentage goes up to 100, an interval up to the largest number of 32 bits. */
  lemma NumbersExactly(n: nat)
    ensures IsValid("pct", Decimal(n)) <==> n <= 100
    ensures IsValid("ri", Decimal(n)) <==> n <= 4_294_967_295
  {
    DecimalValue(n);
    if n <= 4_294_967_295 {
      TenDigits();
      DecimalSize(n, 10);
    }
  }

  /** Anything but one to ten digits is no number. */
  lemma NumbersOnly(key: string, value: string)
    requires key == "pct" || key == "ri"
    ensures IsValid(key, value) ==> 1 <= |value| <= 10 && forall k :: 0 <= k < |value| ==> '0' <= value[k] <= '9'
  {
  }

  /** The failure options are 0, 1, d and s, in any letter case and with white space around them. */
  lemma OptionsExactly(options: seq<string>)
    requires options != [] && forall k :: 0 <= k < |options| ==> ':' !in options[k]
    ensures IsValid("fo", Join(options, ":"))
       <==> forall k :: 0 <= k < |options| ==> Strip(options[k]) in ["0", "1", "d", "D", "s", "S"]
  {
    SplitJoin(options, ':');
    forall k | 0 <= k < |options|
      ensures IsFoOption(options[k]) <==> Strip(options[k]) in ["0", "1", "d", "D", "s", "S"]
    {
      OptionExactly(Strip(options[k]));
    }
    assert Split(Join(options, ":"), ':') == options;
    assert IsValid("fo", Join(options, ":")) <==> IsFo(Join(options, ":"));
  }

  lemma OptionExactly(option: string)
    ensures IsOptionName(Lower(option)) <==> option in ["0", "1", "d", "D", "s", "S"]
  {
    LowerOne(option, 'd');
    LowerOne(option, 's');
    LowerDigit(option, '0');
    LowerDigit(option, '1');
  }

  lemma LowerDigit(value: string, c: char)
    requires '0' <= c <= '9'
    ensures Lower(value) == [c] <==> value == [c]
  {
    if Lower(value) == [c] {
      assert Lower(value)[0] == c && |value| == 1;
      assert value == [value[0]];
    }
  }
}
