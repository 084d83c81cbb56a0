/** Reading, checking and repairing a DMARC record (RFC 7489, sections 6.3 and 6.4). */
module DmarcRecord {
  import opened Text
  import opened Wrappers

  // Tags ------------------------------------------------------------------------------------------

  /** The value is None for a part that lacks the equals sign. */
  datatype Tag = Tag(key: string, value: Option<string>)

  function ParsePart(part: string): Tag {
    Tag(Lower(Strip(Before(part, '='))), if '=' in part then Some(Strip(After(part, '='))) else None)
  }

  function ParseParts(parts: seq<string>): seq<Tag> {
    if parts == [] then []
    else (if IsBlank(parts[0]) then [] else [ParsePart(parts[0])]) + ParseParts(parts[1..])
  }

  function ParseTags(text: string): seq<Tag> {
    ParseParts(Split(text, ';'))
  }

  /** The value of a key in a record: its first occurrence that has one counts. */
  function Lookup(tags: seq<Tag>, key: string): Option<string> {
    if tags == [] then None
    else if tags[0].key == key && tags[0].value.Some? then tags[0].value
    else Lookup(tags[1..], key)
  }

  // Addresses ---------------------------------------------------------------------------------------

  /** What the program knows about the organisation; unquote decodes percent escapes. */
  datatype Target = Target(addresses: set<string>, reportAddress: string, unquote: string -> string)

  datatype Settings = Settings(failureReports: bool, suggestFailureReports: bool) {
    predicate WantRuf() { failureReports && suggestFailureReports }
  }

  function StripAll(parts: seq<string>): seq<string> {
    if parts == [] then []
    else (if IsBlank(parts[0]) then [] else [Strip(parts[0])]) + StripAll(parts[1..])
  }

  function Uris(value: Option<string>): seq<string> {
    StripAll(Split(if value.Some? then value.value else "", ','))
  }

  const MAX_ADDRESS: nat := 320

  function CleanAddress(text: string): string {
    Cut(Lower(Join(Words(DropControls(text)), " ")), MAX_ADDRESS)
  }

  function Mailto(uri: string, unquote: string -> string): Option<string> {
    if !StartsWith(Lower(uri), "mailto:") then None
    else
      var address := CleanAddress(Before(Before(unquote(uri[7..]), '!'), '?'));
      if address == "" then None else Some(address)
  }

  predicate IsOurs(uri: string, target: Target) {
    var address := Mailto(uri, target.unquote);
    address.Some? && address.value in target.addresses
  }

  predicate HasOurs(uris: seq<string>, target: Target) {
    exists k :: 0 <= k < |uris| && IsOurs(uris[k], target)
  }

  function OwnUri(target: Target): string { "mailto:" + target.reportAddress }

  function UrisWithAddress(value: string, target: Target): seq<string> {
    var uris := Uris(Some(value));
    if HasOurs(uris, target) then uris else uris + [OwnUri(target)]
  }

  function WithAddress(value: string, target: Target): string {
    Join(UrisWithAddress(value, target), ",")
  }

  // The repair ----------------------------------------------------------------------------------------

  datatype Entry = Entry(key: string, value: string)

  predicate IsBaseOption(part: string) { part == "0" || part == "1" }

  /** The options of fo apart from 0 and 1. */
  function OtherOptions(parts: seq<string>): seq<string> {
    if parts == [] then []
    else (if IsBaseOption(parts[0]) then [] else [parts[0]]) + OtherOptions(parts[1..])
  }

  function RepairFo(value: string): string {
    Join(["1"] + OtherOptions(StripAll(Split(value, ':'))), ":")
  }

  function RepairValue(key: string, value: string, target: Target, wantRuf: bool): string {
    if key == "v" then "DMARC1"
    else if key == "rua" || (key == "ruf" && wantRuf) then WithAddress(value, target)
    else if key == "fo" && wantRuf then RepairFo(value)
    else value
  }

  function Find(entries: seq<Entry>, key: string): Option<string> {
    if entries == [] then None
    else if entries[0].key == key then Some(entries[0].value)
    else Find(entries[1..], key)
  }

  predicate HasKey(entries: seq<Entry>, key: string) {
    Find(entries, key).Some?
  }

  function Keep(tags: seq<Tag>, target: Target, wantRuf: bool, kept: seq<Entry>): seq<Entry> {
    if tags == [] then kept
    else if tags[0].value.None? || HasKey(kept, tags[0].key) then Keep(tags[1..], target, wantRuf, kept)
    else
      Keep(tags[1..], target, wantRuf,
           kept + [Entry(tags[0].key, RepairValue(tags[0].key, tags[0].value.value, target, wantRuf))])
  }

  function KeyIndex(entries: seq<Entry>, key: string): (i: nat)
    ensures i <= |entries|
  {
    if entries == [] || entries[0].key == key then 0 else 1 + KeyIndex(entries[1..], key)
  }

  function InsertAt(entries: seq<Entry>, at: nat, entry: Entry): seq<Entry>
    requires at <= |entries|
  {
    entries[..at] + [entry] + entries[at..]
  }

  /** Right behind the anchor, or at the end when there is none. */
  function Behind(entries: seq<Entry>, anchor: string): (at: nat)
    ensures at <= |entries| && (entries != [] ==> at > 0)
  {
    var i := KeyIndex(entries, anchor);
    if i < |entries| then i + 1 else |entries|
  }

  function InsertAfter(entries: seq<Entry>, anchor: string, entry: Entry): seq<Entry> {
    InsertAt(entries, Behind(entries, anchor), entry)
  }

  function WithVersion(entries: seq<Entry>): seq<Entry> {
    if entries == [] || entries[0].key != "v" then InsertAt(entries, 0, Entry("v", "DMARC1")) else entries
  }

  function Complete(entries: seq<Entry>, target: Target, wantRuf: bool): seq<Entry> {
    var e1 := if HasKey(entries, "p") then entries else InsertAfter(entries, "v", Entry("p", "none"));
    var e2 := if HasKey(entries, "rua") then e1 else InsertAt(e1, |e1|, Entry("rua", OwnUri(target)));
    var e3 := if wantRuf && !HasKey(entries, "ruf") then InsertAfter(e2, "rua", Entry("ruf", OwnUri(target))) else e2;
    if wantRuf && !HasKey(entries, "fo") then InsertAfter(e3, "ruf", Entry("fo", "1")) else e3
  }

  function Repair(tags: seq<Tag>, target: Target, wantRuf: bool): seq<Entry> {
    Complete(WithVersion(Keep(tags, target, wantRuf, [])), target, wantRuf)
  }

  function PrintEntry(entry: Entry): string {
    entry.key + "=" + entry.value
  }

  function Print(entries: seq<Entry>): string {
    if entries == [] then ""
    else if |entries| == 1 then PrintEntry(entries[0])
    else PrintEntry(entries[0]) + "; " + Print(entries[1..])
  }

  function Suggest(tags: seq<Tag>, target: Target, settings: Settings): Option<string> {
    if target.reportAddress == "" then None else Some(Print(Repair(tags, target, settings.WantRuf())))
  }

  /** The program's own form: a tag list filled in a loop and completed in place. */
  method SuggestFromRecord(tags: seq<Tag>, target: Target, settings: Settings) returns (text: Option<string>)
    ensures text == Suggest(tags, target, settings)
  {
    if target.reportAddress == "" {
      return None;
    }
    var wantRuf := settings.WantRuf();
    var entries: seq<Entry> := [];
    var rest := tags;
    while rest != []
      invariant Keep(rest, target, wantRuf, entries) == Keep(tags, target, wantRuf, [])
    {
      var tag := rest[0];
      rest := rest[1..];
      if tag.value.None? || HasKey(entries, tag.key) {
        continue;
      }
      var value := tag.value.value;
      if tag.key == "v" {
        value := "DMARC1";
      } else if tag.key == "rua" || (tag.key == "ruf" && wantRuf) {
        value := WithAddress(value, target);
      } else if tag.key == "fo" && wantRuf {
        value := RepairFo(value);
      }
      entries := entries + [Entry(tag.key, value)];
    }
    if entries == [] || entries[0].key != "v" {
      entries := InsertAt(entries, 0, Entry("v", "DMARC1"));
    }
    var had := entries;
    if !HasKey(had, "p") {
      entries := InsertAfter(entries, "v", Entry("p", "none"));
    }
    if !HasKey(had, "rua") {
      entries := InsertAt(entries, |entries|, Entry("rua", OwnUri(target)));
    }
    if wantRuf && !HasKey(had, "ruf") {
      entries := InsertAfter(entries, "rua", Entry("ruf", OwnUri(target)));
    }
    if wantRuf && !HasKey(had, "fo") {
      entries := InsertAfter(entries, "ruf", Entry("fo", "1"));
    }
    text := Some(Print(entries));
  }

  // The checks --------------------------------------------------------------------------------------

  datatype Status = Ok | Info | Warning | Error

  /** A record receivers take for DMARC: it starts with v=dmarc1, in any letter case. */
  predicate IsDmarc(text: string) {
    var tag := ParsePart(Split(text, ';')[0]);
    tag.key == "v" && tag.value.Some? && Lower(tag.value.value) == "dmarc1"
  }

  /** The spelling receivers insist on. */
  predicate IsExactDmarc(text: string) {
    ParsePart(Split(text, ';')[0]) == Tag("v", Some("DMARC1"))
  }

  function CheckRua(tags: seq<Tag>, target: Target): Status {
    if HasOurs(Uris(Lookup(tags, "rua")), target) then Ok else Error
  }

  function DropSpaces(text: string): string {
    if text == "" then "" else (if text[0] == ' ' then "" else [text[0]]) + DropSpaces(text[1..])
  }

  predicate FoCoversAll(tags: seq<Tag>) {
    var fo := Lookup(tags, "fo");
    "1" in Split(DropSpaces(if fo.Some? && fo.value != "" then fo.value else "0"), ':')
  }

  /** No result when the program does not read failure reports. */
  function CheckRuf(tags: seq<Tag>, target: Target, settings: Settings): Option<Status> {
    if !settings.failureReports then None
    else if !HasOurs(Uris(Lookup(tags, "ruf")), target) then
      Some(if settings.suggestFailureReports then Warning else Info)
    else Some(if FoCoversAll(tags) then Ok else Info)
  }

  datatype Problem =
    | Duplicate(key: string)
    | NoEquals(key: string)
    | InvalidValue(key: string, value: string)
    | NotMailto(key: string, uri: string)

  predicate IsNumber(text: string) {
    1 <= |text| <= 10 && forall k :: 0 <= k < |text| ==> '0' <= text[k] <= '9'
  }

  function ToInt(text: string): int {
    if text == "" then 0 else ToInt(text[..|text| - 1]) * 10 + (text[|text| - 1] as int - '0' as int)
  }

  const DMARC_RI_MAX := 4_294_967_295
  const CHECKED_KEYS := ["sp", "np", "t", "pct", "adkim", "aspf", "fo", "ri", "psd"]

  predicate IsPolicy(value: string) { value == "none" || value == "quarantine" || value == "reject" }

  predicate IsOptionName(name: string) { name == "0" || name == "1" || name == "d" || name == "s" }

  predicate IsFoOption(part: string) { IsOptionName(Lower(Strip(part))) }

  predicate All(parts: seq<string>, ok: string -> bool) {
    forall k :: 0 <= k < |parts| ==> ok(parts[k])
  }

  predicate IsFo(value: string) {
    All(Split(value, ':'), IsFoOption)
  }

  predicate IsValid(key: string, value: string) {
    var lowered := Lower(value);
    if key == "sp" || key == "np" then IsPolicy(lowered)
    else if key == "t" then lowered == "y" || lowered == "n"
    else if key == "pct" then IsNumber(value) && 0 <= ToInt(value) <= 100
    else if key == "adkim" || key == "aspf" then lowered == "r" || lowered == "s"
    else if key == "fo" then IsFo(value)
    else if key == "ri" then IsNumber(value) && ToInt(value) <= DMARC_RI_MAX
    else if key == "psd" then lowered == "y" || lowered == "n" || lowered == "u"
    else true
  }

  predicate IsReportUri(uri: string) {
    var lowered := Lower(uri);
    StartsWith(lowered, "mailto:") || StartsWith(lowered, "https:") || StartsWith(lowered, "http:")
  }

  function TagProblems(tags: seq<Tag>, seen: set<string>): seq<Problem> {
    if tags == [] then []
    else
      (if tags[0].key in seen then [Duplicate(tags[0].key)] else [])
      + (if tags[0].value.None? then [NoEquals(tags[0].key)] else [])
      + TagProblems(tags[1..], seen + {tags[0].key})
  }

  function ValueProblems(tags: seq<Tag>, keys: seq<string>): seq<Problem> {
    if keys == [] then []
    else
      var value := Lookup(tags, keys[0]);
      (if value.Some? && !IsValid(keys[0], value.value) then [InvalidValue(keys[0], value.value)] else [])
      + ValueProblems(tags, keys[1..])
  }

  function UriProblems(key: string, uris: seq<string>): seq<Problem> {
    if uris == [] then []
    else (if IsReportUri(uris[0]) then [] else [NotMailto(key, uris[0])]) + UriProblems(key, uris[1..])
  }

  function AddressProblems(tags: seq<Tag>): seq<Problem> {
    UriProblems("rua", Uris(Lookup(tags, "rua"))) + UriProblems("ruf", Uris(Lookup(tags, "ruf")))
  }

  function SyntaxProblems(tags: seq<Tag>): seq<Problem> {
    TagProblems(tags, {}) + ValueProblems(tags, CHECKED_KEYS) + AddressProblems(tags)
  }
}
