/** What the repair of a DMARC record guarantees: the printed suggestion reads back as it was built, passes the
    checks that asked for it, is not changed by a second repair, and keeps what it had no reason to touch. */
module DmarcRepair {
  import opened Text
  import opened Wrappers
  import opened DmarcRecord

  // Printing and reading ------------------------------------------------------------------------------

  predicate GoodKey(key: string) {
    Trimmed(key) && IsLower(key) && ';' !in key && '=' !in key
  }

  predicate GoodValue(value: string) {
    Trimmed(value) && ';' !in value
  }

  predicate Printable(entries: seq<Entry>) {
    forall k :: 0 <= k < |entries| ==> GoodKey(entries[k].key) && GoodValue(entries[k].value)
  }

  function AsTags(entries: seq<Entry>): seq<Tag> {
    if entries == [] then [] else [Tag(entries[0].key, Some(entries[0].value))] + AsTags(entries[1..])
  }

  lemma Partition(head: string, c: char, tail: string)
    requires c !in head
    ensures Before(head + [c] + tail, c) == head && After(head + [c] + tail, c) == tail && c in head + [c] + tail
  {
    IndexAfter(head, c, tail);
    assert (head + [c] + tail)[|head|] == c;
  }

  lemma ParseJoined(head: string, value: string)
    requires '=' !in head && ';' !in head && ';' !in value
    ensures var part := head + ['='] + value;
            && ParsePart(part) == Tag(Lower(Strip(head)), Some(Strip(value)))
            && !IsBlank(part) && ';' !in part
  {
    Partition(head, '=', value);
    assert !IsSpace((head + ['='] + value)[|head|]);
  }

  lemma ParsePrinted(entry: Entry, lead: string)
    requires GoodKey(entry.key) && GoodValue(entry.value) && (lead == "" || lead == " ")
    ensures ParsePart(lead + PrintEntry(entry)) == Tag(entry.key, Some(entry.value))
    ensures !IsBlank(lead + PrintEntry(entry)) && ';' !in lead + PrintEntry(entry)
  {
    var head := lead + entry.key;
    assert lead + PrintEntry(entry) == head + ['='] + entry.value;
    ParseJoined(head, entry.value);
    StripLead(entry.key, lead);
    LowerFixed(entry.key);
    assert ';' !in head && '=' !in head;
  }

  lemma StripLead(text: string, lead: string)
    requires Trimmed(text) && (lead == "" || lead == " ")
    ensures Strip(lead + text) == text
  {
    if lead == "" {
      assert lead + text == text;
    } else {
      StripAfterSpace(text);
    }
  }

  lemma SplitFirst(part: string, c: char, rest: string)
    requires c !in part
    ensures Split(part + [c] + rest, c) == [part] + Split(rest, c)
  {
    IndexAfter(part, c, rest);
    var text := part + [c] + rest;
    assert text[..|part|] == part && text[|part| + 1..] == rest;
  }

  lemma SplitWhole(part: string, c: char)
    requires c !in part
    ensures Split(part, c) == [part]
  {
  }

  /** The text may have the space the printer puts between entries in front. */
  lemma {:induction false} PrintRoundTrip(entries: seq<Entry>, lead: string, text: string)
    requires entries != [] && Printable(entries) && (lead == "" || lead == " ") && text == lead + Print(entries)
    ensures ParseTags(text) == AsTags(entries)
  {
    var part := lead + PrintEntry(entries[0]);
    ParsePrinted(entries[0], lead);
    if |entries| == 1 {
      ParseOne(part);
    } else {
      var others := entries[1..];
      var rest := " " + Print(others);
      PrintFirst(entries, lead, text, part, rest);
      PrintRoundTrip(others, " ", rest);
      ParseMore(text, part, rest);
      AsTagsFirst(entries, others);
    }
  }

  lemma AsTagsFirst(entries: seq<Entry>, others: seq<Entry>)
    requires entries != [] && others == entries[1..]
    ensures AsTags(entries) == [Tag(entries[0].key, Some(entries[0].value))] + AsTags(others)
  {
  }

  lemma ParseOne(part: string)
    requires !IsBlank(part) && ';' !in part
    ensures ParseTags(part) == [ParsePart(part)]
  {
    SplitWhole(part, ';');
    assert ParseParts([part]) == [ParsePart(part)] + ParseParts([]);
  }

  lemma ParseMore(text: string, part: string, rest: string)
    requires !IsBlank(part) && ';' !in part && text == part + [';'] + rest
    ensures ParseTags(text) == [ParsePart(part)] + ParseTags(rest)
  {
    SplitFirst(part, ';', rest);
    ParseFirst(part, Split(rest, ';'));
  }

  lemma PrintFirst(entries: seq<Entry>, lead: string, text: string, part: string, rest: string)
    requires |entries| > 1 && text == lead + Print(entries)
    requires part == lead + PrintEntry(entries[0]) && rest == " " + Print(entries[1..])
    ensures text == part + [';'] + rest
  {
    var first, others := PrintEntry(entries[0]), Print(entries[1..]);
    assert Print(entries) == first + "; " + others;
    Regroup(lead, first, others);
  }

  lemma Regroup(lead: string, first: string, others: string)
    ensures lead + (first + "; " + others) == lead + first + [';'] + (" " + others)
  {
    assert "; " == [';'] + " ";
  }

  lemma ParseFirst(part: string, more: seq<string>)
    requires !IsBlank(part)
    ensures ParseParts([part] + more) == [ParsePart(part)] + ParseParts(more)
  {
    assert ([part] + more)[1..] == more;
  }

  lemma LowerKeepsOut(text: string, c: char)
    requires c !in text && !('a' <= c <= 'z')
    ensures c !in Lower(text)
  {
  }

  lemma AroundEquals(part: string)
    requires ';' !in part
    ensures '=' !in Before(part, '=') && ';' !in Before(part, '=') && ';' !in After(part, '=')
  {
  }

  lemma KeyGood(raw: string)
    requires '=' !in raw && ';' !in raw
    ensures GoodKey(Lower(Strip(raw)))
  {
    var key := Strip(raw);
    assert Trimmed(key) && ';' !in key && '=' !in key;
    LowerFixed(key);
    LowerKeepsOut(key, ';');
    LowerKeepsOut(key, '=');
  }

  lemma ValueGood(raw: string)
    requires ';' !in raw
    ensures GoodValue(Strip(raw))
  {
  }

  predicate GoodTag(tag: Tag) {
    GoodKey(tag.key) && (tag.value.Some? ==> GoodValue(tag.value.value))
  }

  lemma PartGood(part: string)
    requires ';' !in part
    ensures GoodTag(ParsePart(part))
  {
    AroundEquals(part);
    KeyGood(Before(part, '='));
    ValueGood(After(part, '='));
  }

  predicate GoodTags(tags: seq<Tag>) {
    forall k :: 0 <= k < |tags| ==> GoodTag(tags[k])
  }

  lemma GoodTagsNext(tag: Tag, rest: seq<Tag>)
    requires GoodTag(tag) && GoodTags(rest)
    ensures GoodTags([tag] + rest)
  {
  }

  lemma {:induction false} PartsGood(parts: seq<string>)
    requires forall k :: 0 <= k < |parts| ==> ';' !in parts[k]
    ensures GoodTags(ParseParts(parts))
  {
    if parts != [] {
      PartsGood(parts[1..]);
      PartGood(parts[0]);
      GoodTagsNext(ParsePart(parts[0]), ParseParts(parts[1..]));
      assert [] + ParseParts(parts[1..]) == ParseParts(parts[1..]);
    }
  }

  // Lists of addresses ----------------------------------------------------------------------------------

  /** An item of a list: trimmed, not empty, without the separator. */
  predicate IsItem(item: string, separator: char) {
    item != "" && Trimmed(item) && separator !in item
  }

  predicate AreItems(items: seq<string>, separator: char) {
    forall k :: 0 <= k < |items| ==> IsItem(items[k], separator)
  }

  lemma {:induction false} StripAllGives(parts: seq<string>, separator: char)
    requires forall k :: 0 <= k < |parts| ==> separator !in parts[k]
    ensures AreItems(StripAll(parts), separator)
  {
    if parts != [] {
      StripAllGives(parts[1..], separator);
    }
  }

  predicate KeepOut(parts: seq<string>, c: char) {
    forall k :: 0 <= k < |parts| ==> c !in parts[k]
  }

  lemma {:induction false} StripAllKeepsOut(parts: seq<string>, c: char)
    requires KeepOut(parts, c)
    ensures KeepOut(StripAll(parts), c)
  {
    if parts != [] {
      StripAllKeepsOut(parts[1..], c);
    }
  }

  lemma {:induction false} StripAllFixed(items: seq<string>, separator: char)
    requires AreItems(items, separator)
    ensures StripAll(items) == items
  {
    if items != [] {
      assert !IsBlank(items[0]);
      StripAllFixed(items[1..], separator);
    }
  }

  /** Reading a printed list gives the list. */
  lemma ListRoundTrip(items: seq<string>, separator: char)
    requires items != [] && AreItems(items, separator)
    ensures StripAll(Split(Join(items, [separator]), separator)) == items
  {
    SplitJoin(items, separator);
    StripAllFixed(items, separator);
  }

  lemma {:induction false} JoinGood(items: seq<string>, separator: char)
    requires items != [] && AreItems(items, separator) && separator != ';'
    requires KeepOut(items, ';')
    ensures Join(items, [separator]) != "" && GoodValue(Join(items, [separator]))
    ensures Join(items, [separator])[0] == items[0][0]
  {
    if |items| > 1 {
      JoinGood(items[1..], separator);
    }
  }

  // The own address ---------------------------------------------------------------------------------------

  /** An address without white space, capitals, control characters, escapes or separators. */
  predicate PlainAddress(address: string) {
    && IsWord(address) && IsLower(address) && |address| <= 320
    && '%' !in address && '!' !in address && '?' !in address && ',' !in address && ';' !in address
    && NoControls(address)
  }

  /** The report address is active and plain, and decoding leaves texts without escapes alone. */
  ghost predicate GoodTarget(target: Target) {
    && target.reportAddress in target.addresses && PlainAddress(target.reportAddress)
    && forall text: string :: '%' !in text ==> target.unquote(text) == text
  }

  lemma {:induction false} WordLengthWhole(text: string)
    requires forall k :: 0 <= k < |text| ==> !IsSpace(text[k])
    ensures WordLength(text) == |text|
  {
    if text != "" {
      WordLengthWhole(text[1..]);
    }
  }

  lemma CleanFixed(address: string)
    requires PlainAddress(address)
    ensures CleanAddress(address) == address
  {
    NothingToDrop(address);
    WordLengthWhole(address);
    assert address[..|address|] == address && address[|address|..] == "";
    assert Words(address) == [address] + Words("");
    LowerFixed(address);
  }

  lemma LowerPrefix(prefix: string, rest: string)
    requires IsLower(prefix)
    ensures StartsWith(Lower(prefix + rest), prefix) && (prefix + rest)[|prefix|..] == rest
  {
    assert Lower(prefix + rest)[..|prefix|] == prefix;
  }

  lemma BeforeAbsent(text: string, c: char)
    requires c !in text
    ensures Before(text, c) == text
  {
  }

  lemma OwnUriAddress(target: Target)
    requires GoodTarget(target)
    ensures Mailto(OwnUri(target), target.unquote) == Some(target.reportAddress)
  {
    var address := target.reportAddress;
    LowerPrefix("mailto:", address);
    BeforeAbsent(address, '!');
    BeforeAbsent(address, '?');
    CleanFixed(address);
  }

  lemma OwnUriIsOurs(target: Target)
    requires GoodTarget(target)
    ensures IsOurs(OwnUri(target), target) && IsItem(OwnUri(target), ',') && ';' !in OwnUri(target)
  {
    OwnUriAddress(target);
  }

  // Repaired values --------------------------------------------------------------------------------------

  lemma UrisGood(value: string)
    requires ';' !in value
    ensures AreItems(Uris(Some(value)), ',') && KeepOut(Uris(Some(value)), ';')
  {
    SplitKeeps(value, ',', ';');
    StripAllGives(Split(value, ','), ',');
    StripAllKeepsOut(Split(value, ','), ';');
  }

  /** The repaired list holds the own address and every destination it had; repairing it again changes nothing. */
  lemma WithAddressGood(value: string, target: Target)
    requires ';' !in value && GoodTarget(target)
    ensures var repaired := WithAddress(value, target);
            && repaired != "" && GoodValue(repaired)
            && Uris(Some(repaired)) == UrisWithAddress(value, target)
            && HasOurs(Uris(Some(repaired)), target)
            && WithAddress(repaired, target) == repaired
  {
    var all := UrisWithAddress(value, target);
    AllUrisGood(value, target);
    ListRoundTrip(all, ',');
    JoinGood(all, ',');
  }

  lemma AllUrisGood(value: string, target: Target)
    requires ';' !in value && GoodTarget(target)
    ensures AreItems(UrisWithAddress(value, target), ',') && HasOurs(UrisWithAddress(value, target), target)
    ensures KeepOut(UrisWithAddress(value, target), ';')
  {
    var uris := Uris(Some(value));
    UrisGood(value);
    OwnUriIsOurs(target);
    WithOwn(uris, OwnUri(target), target);
  }

  lemma WithOwn(uris: seq<string>, own: string, target: Target)
    requires AreItems(uris, ',') && KeepOut(uris, ';')
    requires IsOurs(own, target) && IsItem(own, ',') && ';' !in own
    ensures AreItems(uris + [own], ',') && HasOurs(uris + [own], target) && KeepOut(uris + [own], ';')
  {
    assert (uris + [own])[|uris|] == own;
  }

  predicate IsOther(part: string) {
    IsItem(part, ':') && ';' !in part && !IsBaseOption(part)
  }

  predicate AreOther(parts: seq<string>) {
    forall k :: 0 <= k < |parts| ==> IsOther(parts[k])
  }

  lemma {:induction false} OtherOptionsGood(parts: seq<string>)
    requires AreItems(parts, ':') && KeepOut(parts, ';')
    ensures AreOther(OtherOptions(parts))
  {
    if parts != [] {
      OtherOptionsGood(parts[1..]);
      assert !IsBaseOption(parts[0]) ==> IsOther(parts[0]);
    }
  }

  lemma {:induction false} OtherOptionsFixed(parts: seq<string>)
    requires AreOther(parts)
    ensures OtherOptions(parts) == parts
  {
    if parts != [] {
      assert IsOther(parts[0]);
      OtherOptionsFixed(parts[1..]);
    }
  }

  function FoItems(value: string): seq<string> {
    ["1"] + OtherOptions(StripAll(Split(value, ':')))
  }

  lemma FoItemsGood(value: string)
    requires ';' !in value
    ensures var items := FoItems(value);
            && items != [] && items[0] == "1" && OtherOptions(items) == items[1..]
            && AreItems(items, ':') && KeepOut(items, ';')
  {
    var parts := StripAll(Split(value, ':'));
    SplitKeeps(value, ':', ';');
    StripAllGives(Split(value, ':'), ':');
    StripAllKeepsOut(Split(value, ':'), ';');
    OtherOptionsGood(parts);
    OtherOptionsFixed(OtherOptions(parts));
    OneFirst(OtherOptions(parts));
  }

  lemma OneIsItem()
    ensures IsBaseOption("1") && IsItem("1", ':') && ';' !in "1"
  {
  }

  lemma OneFirst(others: seq<string>)
    requires AreOther(others)
    ensures AreItems(["1"] + others, ':') && KeepOut(["1"] + others, ';')
    ensures OtherOptions(["1"] + others) == OtherOptions(others)
  {
    OneIsItem();
    var items := ["1"] + others;
    assert items[1..] == others;
    forall k | 0 <= k < |items| ensures IsItem(items[k], ':') && ';' !in items[k] {
      assert k > 0 ==> IsOther(others[k - 1]) && items[k] == others[k - 1];
    }
  }

  lemma RepairFoGood(value: string)
    requires ';' !in value
    ensures var repaired := RepairFo(value);
            && repaired != "" && GoodValue(repaired)
            && Split(repaired, ':') == FoItems(value)
            && RepairFo(repaired) == repaired
  {
    var items := FoItems(value);
    FoItemsGood(value);
    SplitJoin(items, ':');
    StripAllFixed(items, ':');
    JoinGood(items, ':');
  }

  lemma RepairValueGood(key: string, value: string, target: Target, wantRuf: bool)
    requires GoodValue(value) && GoodTarget(target)
    ensures var repaired := RepairValue(key, value, target, wantRuf);
            GoodValue(repaired) && RepairValue(key, repaired, target, wantRuf) == repaired
  {
    if key == "v" {
    } else if key == "rua" || (key == "ruf" && wantRuf) {
      WithAddressGood(value, target);
    } else if key == "fo" && wantRuf {
      RepairFoGood(value);
    }
  }
}
