/** The guarantees of the repaired DMARC record as a whole. */
module DmarcGuarantees {
  import opened Text
  import opened Wrappers
  import opened DmarcRecord
  import opened DmarcRepair

  predicate DistinctKeys(entries: seq<Entry>) {
    forall i, j :: 0 <= i < j < |entries| ==> entries[i].key != entries[j].key
  }

  /** Repairing the values once more changes none. */
  predicate Settled(entries: seq<Entry>, target: Target, wantRuf: bool) {
    forall k :: 0 <= k < |entries| ==>
      RepairValue(entries[k].key, entries[k].value, target, wantRuf) == entries[k].value
  }

  predicate Sane(entries: seq<Entry>, target: Target, wantRuf: bool) {
    DistinctKeys(entries) && Printable(entries) && Settled(entries, target, wantRuf)
  }

  // Looking entries up -----------------------------------------------------------------------------------

  lemma {:induction false} FindAppend(a: seq<Entry>, b: seq<Entry>, key: string)
    ensures Find(a + b, key) == if HasKey(a, key) then Find(a, key) else Find(b, key)
  {
    if a == [] {
      assert a + b == b;
    } else {
      assert (a + b)[1..] == a[1..] + b;
      FindAppend(a[1..], b, key);
    }
  }

  lemma FindOne(entry: Entry, key: string)
    ensures Find([entry], key) == if entry.key == key then Some(entry.value) else None
  {
  }

  lemma FindInserted(entries: seq<Entry>, at: nat, entry: Entry, key: string)
    requires at <= |entries| && !HasKey(entries, entry.key)
    ensures Find(InsertAt(entries, at, entry), key)
         == if key == entry.key then Some(entry.value) else Find(entries, key)
  {
    assert entries == entries[..at] + entries[at..];
    FindAppend(entries[..at], entries[at..], key);
    FindAppend(entries[..at], [entry], key);
    FindAppend(entries[..at] + [entry], entries[at..], key);
    FindOne(entry, key);
  }

  lemma {:induction false} HasKeyAt(entries: seq<Entry>, k: nat)
    requires k < |entries|
    ensures HasKey(entries, entries[k].key)
  {
    if k > 0 {
      HasKeyAt(entries[1..], k - 1);
    }
  }

  lemma {:induction false} FindAt(entries: seq<Entry>, key: string) returns (k: nat)
    requires HasKey(entries, key)
    ensures k < |entries| && entries[k] == Entry(key, Find(entries, key).value)
  {
    if entries[0].key == key {
      k := 0;
    } else {
      k := FindAt(entries[1..], key);
      k := k + 1;
    }
  }

  lemma {:induction false} AbsentKey(entries: seq<Entry>, key: string)
    requires forall k :: 0 <= k < |entries| ==> entries[k].key != key
    ensures !HasKey(entries, key)
  {
    if entries != [] {
      AbsentKey(entries[1..], key);
    }
  }

  lemma NewKey(entries: seq<Entry>, key: string)
    requires !HasKey(entries, key)
    ensures forall k :: 0 <= k < |entries| ==> entries[k].key != key
  {
    forall k | 0 <= k < |entries| ensures entries[k].key != key {
      HasKeyAt(entries, k);
    }
  }

  predicate GoodEntry(entry: Entry, target: Target, wantRuf: bool) {
    && GoodKey(entry.key) && GoodValue(entry.value)
    && RepairValue(entry.key, entry.value, target, wantRuf) == entry.value
  }

  lemma InsertedAt(entries: seq<Entry>, at: nat, entry: Entry, k: nat)
    requires at <= |entries| && k <= |entries|
    ensures |InsertAt(entries, at, entry)| == |entries| + 1
    ensures InsertAt(entries, at, entry)[k] == if k < at then entries[k] else if k == at then entry else entries[k - 1]
  {
  }

  lemma InsertedDistinct(entries: seq<Entry>, at: nat, entry: Entry)
    requires at <= |entries| && !HasKey(entries, entry.key) && DistinctKeys(entries)
    ensures DistinctKeys(InsertAt(entries, at, entry))
  {
    var r := InsertAt(entries, at, entry);
    NewKey(entries, entry.key);
    forall i, j | 0 <= i < j < |r| ensures r[i].key != r[j].key {
      InsertedAt(entries, at, entry, i);
      InsertedAt(entries, at, entry, j);
    }
  }

  lemma InsertedSane(entries: seq<Entry>, at: nat, entry: Entry, target: Target, wantRuf: bool)
    requires at <= |entries| && !HasKey(entries, entry.key)
    requires Sane(entries, target, wantRuf) && GoodEntry(entry, target, wantRuf)
    ensures Sane(InsertAt(entries, at, entry), target, wantRuf)
  {
    var r := InsertAt(entries, at, entry);
    InsertedDistinct(entries, at, entry);
    forall k | 0 <= k < |r|
      ensures GoodKey(r[k].key) && GoodValue(r[k].value)
      ensures RepairValue(r[k].key, r[k].value, target, wantRuf) == r[k].value
    {
      InsertedAt(entries, at, entry, k);
      assert r[k] == entry || (k < at && r[k] == entries[k]) || (k > at && r[k] == entries[k - 1]);
    }
  }

  // Collecting the tags -------------------------------------------------------------------------------------

  /** The first occurrence of every key that has a value, as written. */
  function First(tags: seq<Tag>, found: seq<Entry>): seq<Entry> {
    if tags == [] then found
    else if tags[0].value.None? || HasKey(found, tags[0].key) then First(tags[1..], found)
    else First(tags[1..], found + [Entry(tags[0].key, tags[0].value.value)])
  }

  lemma {:induction false} KeepSane(tags: seq<Tag>, target: Target, wantRuf: bool, kept: seq<Entry>)
    requires GoodTags(tags) && GoodTarget(target) && Sane(kept, target, wantRuf)
    ensures Sane(Keep(tags, target, wantRuf, kept), target, wantRuf)
    ensures kept != [] ==> Keep(tags, target, wantRuf, kept) != [] && Keep(tags, target, wantRuf, kept)[0] == kept[0]
  {
    if tags != [] {
      var tag := tags[0];
      if tag.value.None? || HasKey(kept, tag.key) {
        KeepSane(tags[1..], target, wantRuf, kept);
      } else {
        var entry := Entry(tag.key, RepairValue(tag.key, tag.value.value, target, wantRuf));
        RepairValueGood(tag.key, tag.value.value, target, wantRuf);
        InsertedSane(kept, |kept|, entry, target, wantRuf);
        assert InsertAt(kept, |kept|, entry) == kept + [entry];
        KeepSane(tags[1..], target, wantRuf, kept + [entry]);
      }
    }
  }

  function RepairLookup(tags: seq<Tag>, key: string, target: Target, wantRuf: bool): Option<string> {
    match Lookup(tags, key)
    case None => None
    case Some(value) => Some(RepairValue(key, value, target, wantRuf))
  }

  /** What is kept for a key is the repaired value of its first occurrence. */
  lemma {:induction false} KeepFind(tags: seq<Tag>, target: Target, wantRuf: bool, kept: seq<Entry>, key: string)
    ensures Find(Keep(tags, target, wantRuf, kept), key)
         == if HasKey(kept, key) then Find(kept, key) else RepairLookup(tags, key, target, wantRuf)
  {
    if tags != [] {
      var tag := tags[0];
      if tag.value.None? || HasKey(kept, tag.key) {
        KeepFind(tags[1..], target, wantRuf, kept, key);
      } else {
        var entry := Entry(tag.key, RepairValue(tag.key, tag.value.value, target, wantRuf));
        FindAppend(kept, [entry], key);
        FindOne(entry, key);
        KeepFind(tags[1..], target, wantRuf, kept + [entry], key);
      }
    }
  }

  // Completing -------------------------------------------------------------------------------------------------

  /** A record as the repair leaves it. */
  predicate Ready(entries: seq<Entry>, target: Target, wantRuf: bool) {
    && entries != [] && entries[0].key == "v" && Sane(entries, target, wantRuf)
    && HasKey(entries, "p") && HasKey(entries, "rua")
    && (wantRuf ==> HasKey(entries, "ruf") && HasKey(entries, "fo"))
  }

  /** What the repair adds when a key is missing. */
  function Added(key: string, target: Target, wantRuf: bool): Option<string> {
    if key == "p" then Some("none")
    else if key == "rua" || (key == "ruf" && wantRuf) then Some(OwnUri(target))
    else if key == "fo" && wantRuf then Some("1")
    else None
  }

  lemma OwnUriSettled(target: Target)
    requires GoodTarget(target)
    ensures Uris(Some(OwnUri(target))) == [OwnUri(target)]
    ensures WithAddress(OwnUri(target), target) == OwnUri(target) && GoodValue(OwnUri(target))
  {
    OwnUriIsOurs(target);
    var own := [OwnUri(target)];
    assert Join(own, ",") == OwnUri(target);
    assert IsItem(own[0], ',');
    ListRoundTrip(own, ',');
    assert IsOurs(own[0], target);
  }

  lemma OneSettled()
    ensures RepairFo("1") == "1" && GoodValue("1")
  {
    SplitWhole("1", ':');
    OneIsItem();
    assert StripAll(["1"]) == ["1"] + StripAll([]);
    assert OtherOptions(["1"]) == OtherOptions([]) == [];
  }

  lemma NoneGood(target: Target, wantRuf: bool)
    ensures GoodEntry(Entry("p", "none"), target, wantRuf)
  {
  }

  lemma KeysGood()
    ensures GoodKey("rua") && GoodKey("ruf") && GoodKey("fo")
  {
  }

  lemma AddedGood(key: string, target: Target, wantRuf: bool)
    requires GoodTarget(target) && Added(key, target, wantRuf).Some?
    ensures GoodEntry(Entry(key, Added(key, target, wantRuf).value), target, wantRuf)
  {
    if key == "p" {
      NoneGood(target, wantRuf);
    } else {
      KeysGood();
      if key == "fo" {
        OneSettled();
      } else {
        OwnUriSettled(target);
      }
    }
  }

  /** One completing step of the repair. */
  function Ensure(entries: seq<Entry>, at: nat, key: string, target: Target, wantRuf: bool): seq<Entry>
    requires at <= |entries|
  {
    if HasKey(entries, key) || Added(key, target, wantRuf).None? then entries
    else InsertAt(entries, at, Entry(key, Added(key, target, wantRuf).value))
  }

  lemma EnsureGood(entries: seq<Entry>, at: nat, key: string, target: Target, wantRuf: bool)
    requires at <= |entries| && (entries != [] ==> at > 0) && GoodTarget(target) && Sane(entries, target, wantRuf)
    ensures var r := Ensure(entries, at, key, target, wantRuf);
            && Sane(r, target, wantRuf) && (entries != [] ==> r != [] && r[0] == entries[0])
            && (Added(key, target, wantRuf).Some? ==> HasKey(r, key))
  {
    if !HasKey(entries, key) && Added(key, target, wantRuf).Some? {
      AddedGood(key, target, wantRuf);
      InsertedSane(entries, at, Entry(key, Added(key, target, wantRuf).value), target, wantRuf);
      FindInserted(entries, at, Entry(key, Added(key, target, wantRuf).value), key);
    }
  }

  lemma EnsureFind(entries: seq<Entry>, at: nat, key: string, target: Target, wantRuf: bool, other: string)
    requires at <= |entries|
    ensures Find(Ensure(entries, at, key, target, wantRuf), other)
         == if other == key && !HasKey(entries, key) then Added(key, target, wantRuf) else Find(entries, other)
  {
    if !HasKey(entries, key) && Added(key, target, wantRuf).Some? {
      FindInserted(entries, at, Entry(key, Added(key, target, wantRuf).value), other);
    }
  }

  function AddPolicy(e: seq<Entry>, target: Target, wantRuf: bool): seq<Entry> {
    Ensure(e, Behind(e, "v"), "p", target, wantRuf)
  }

  function AddRua(e: seq<Entry>, target: Target, wantRuf: bool): seq<Entry> {
    Ensure(e, |e|, "rua", target, wantRuf)
  }

  function AddRuf(e: seq<Entry>, target: Target, wantRuf: bool): seq<Entry> {
    Ensure(e, Behind(e, "rua"), "ruf", target, wantRuf)
  }

  function AddFo(e: seq<Entry>, target: Target, wantRuf: bool): seq<Entry> {
    Ensure(e, Behind(e, "ruf"), "fo", target, wantRuf)
  }

  lemma AddedIs(target: Target, wantRuf: bool)
    ensures Added("p", target, wantRuf) == Some("none") && Added("rua", target, wantRuf) == Some(OwnUri(target))
    ensures Added("ruf", target, wantRuf) == if wantRuf then Some(OwnUri(target)) else None
    ensures Added("fo", target, wantRuf) == if wantRuf then Some("1") else None
  {
  }

  lemma EnsureHas(e: seq<Entry>, at: nat, key: string, target: Target, wantRuf: bool, other: string)
    requires at <= |e| && other != key
    ensures HasKey(Ensure(e, at, key, target, wantRuf), other) <==> HasKey(e, other)
  {
    EnsureFind(e, at, key, target, wantRuf, other);
  }

  /** A step that looks for its key in the list of before. */
  lemma EnsureByFirst(first: seq<Entry>, e: seq<Entry>, at: nat, key: string, target: Target, wantRuf: bool,
                      added: Option<string>)
    requires at <= |e| && (HasKey(first, key) <==> HasKey(e, key)) && added == Added(key, target, wantRuf)
    ensures Ensure(e, at, key, target, wantRuf)
         == if added.None? || HasKey(first, key) then e else InsertAt(e, at, Entry(key, added.value))
  {
  }

  lemma OtherKeys(e: seq<Entry>, target: Target, wantRuf: bool)
    ensures var e1 := AddPolicy(e, target, wantRuf);
            var e2 := AddRua(e1, target, wantRuf);
            var e3 := AddRuf(e2, target, wantRuf);
            && (HasKey(e1, "rua") <==> HasKey(e, "rua"))
            && (HasKey(e2, "ruf") <==> HasKey(e, "ruf"))
            && (HasKey(e3, "fo") <==> HasKey(e, "fo"))
  {
    var e1 := AddPolicy(e, target, wantRuf);
    var e2 := AddRua(e1, target, wantRuf);
    EnsureHas(e, Behind(e, "v"), "p", target, wantRuf, "rua");
    EnsureHas(e, Behind(e, "v"), "p", target, wantRuf, "ruf");
    EnsureHas(e, Behind(e, "v"), "p", target, wantRuf, "fo");
    EnsureHas(e1, |e1|, "rua", target, wantRuf, "ruf");
    EnsureHas(e1, |e1|, "rua", target, wantRuf, "fo");
    EnsureHas(e2, Behind(e2, "rua"), "ruf", target, wantRuf, "fo");
  }

  /** The keys the program reads once, before it inserts, decide as if they were read before every step. */
  lemma CompleteInSteps(e: seq<Entry>, target: Target, wantRuf: bool)
    ensures Complete(e, target, wantRuf)
         == AddFo(AddRuf(AddRua(AddPolicy(e, target, wantRuf), target, wantRuf), target, wantRuf), target, wantRuf)
  {
    AddedIs(target, wantRuf);
    OtherKeys(e, target, wantRuf);
    var e1 := AddPolicy(e, target, wantRuf);
    var e2 := AddRua(e1, target, wantRuf);
    var e3 := AddRuf(e2, target, wantRuf);
    EnsureByFirst(e, e, Behind(e, "v"), "p", target, wantRuf, Some("none"));
    EnsureByFirst(e, e1, |e1|, "rua", target, wantRuf, Some(OwnUri(target)));
    EnsureByFirst(e, e2, Behind(e2, "rua"), "ruf", target, wantRuf, if wantRuf then Some(OwnUri(target)) else None);
    EnsureByFirst(e, e3, Behind(e3, "ruf"), "fo", target, wantRuf, if wantRuf then Some("1") else None);
  }

  lemma CompleteFind(e: seq<Entry>, target: Target, wantRuf: bool, key: string)
    ensures Find(Complete(e, target, wantRuf), key)
         == if HasKey(e, key) then Find(e, key) else Added(key, target, wantRuf)
  {
    CompleteInSteps(e, target, wantRuf);
    var e1 := AddPolicy(e, target, wantRuf);
    var e2 := AddRua(e1, target, wantRuf);
    var e3 := AddRuf(e2, target, wantRuf);
    EnsureFind(e, Behind(e, "v"), "p", target, wantRuf, key);
    EnsureFind(e1, |e1|, "rua", target, wantRuf, key);
    EnsureFind(e2, Behind(e2, "rua"), "ruf", target, wantRuf, key);
    EnsureFind(e3, Behind(e3, "ruf"), "fo", target, wantRuf, key);
  }

  lemma CompleteSane(e: seq<Entry>, target: Target, wantRuf: bool)
    requires e != [] && GoodTarget(target) && Sane(e, target, wantRuf)
    ensures var r := Complete(e, target, wantRuf); Sane(r, target, wantRuf) && r != [] && r[0] == e[0]
  {
    CompleteInSteps(e, target, wantRuf);
    var e1 := AddPolicy(e, target, wantRuf);
    var e2 := AddRua(e1, target, wantRuf);
    var e3 := AddRuf(e2, target, wantRuf);
    EnsureGood(e, Behind(e, "v"), "p", target, wantRuf);
    EnsureGood(e1, |e1|, "rua", target, wantRuf);
    EnsureGood(e2, Behind(e2, "rua"), "ruf", target, wantRuf);
    EnsureGood(e3, Behind(e3, "ruf"), "fo", target, wantRuf);
  }

  lemma CompleteReady(e: seq<Entry>, target: Target, wantRuf: bool)
    requires e != [] && e[0].key == "v" && GoodTarget(target) && Sane(e, target, wantRuf)
    ensures Ready(Complete(e, target, wantRuf), target, wantRuf)
  {
    CompleteSane(e, target, wantRuf);
    CompleteFind(e, target, wantRuf, "p");
    CompleteFind(e, target, wantRuf, "rua");
    CompleteFind(e, target, wantRuf, "ruf");
    CompleteFind(e, target, wantRuf, "fo");
  }

  // Where the version stands ----------------------------------------------------------------------------------

  /** Key of the first tag with a value. */
  function FirstKey(tags: seq<Tag>): Option<string> {
    if tags == [] then None else if tags[0].value.Some? then Some(tags[0].key) else FirstKey(tags[1..])
  }

  /** The version comes first, or there is none. */
  predicate VersionLeads(tags: seq<Tag>) {
    FirstKey(tags) == Some("v") || Lookup(tags, "v").None?
  }

  lemma {:induction false} KeepStarts(tags: seq<Tag>, target: Target, wantRuf: bool, kept: seq<Entry>)
    ensures var r := Keep(tags, target, wantRuf, kept);
            && (kept != [] ==> r != [] && r[0] == kept[0])
            && (kept == [] ==> (r == [] <==> FirstKey(tags).None?) && (r != [] ==> FirstKey(tags) == Some(r[0].key)))
  {
    if tags != [] {
      var tag := tags[0];
      if tag.value.None? || HasKey(kept, tag.key) {
        KeepStarts(tags[1..], target, wantRuf, kept);
      } else {
        var entry := Entry(tag.key, RepairValue(tag.key, tag.value.value, target, wantRuf));
        KeepStarts(tags[1..], target, wantRuf, kept + [entry]);
      }
    }
  }

  lemma DmarcLeads(text: string)
    ensures IsDmarc(text) ==> FirstKey(ParseTags(text)) == Some("v")
  {
    if IsDmarc(text) {
      LeadingTag(text, Split(text, ';'), ParsePart(Split(text, ';')[0]));
    }
  }

  lemma LeadingTag(text: string, parts: seq<string>, tag: Tag)
    requires parts == Split(text, ';') && tag == ParsePart(parts[0]) && tag.value.Some?
    ensures FirstKey(ParseTags(text)) == Some(tag.key)
  {
    HasEquals(parts[0], tag);
    LeadingPart(parts[0], tag, parts[1..], parts);
  }

  lemma HasEquals(part: string, tag: Tag)
    requires tag == ParsePart(part) && tag.value.Some?
    ensures !IsBlank(part)
  {
    assert '=' in part;
    NotBlank(part, '=');
  }

  lemma LeadingPart(part: string, tag: Tag, more: seq<string>, parts: seq<string>)
    requires parts == [part] + more && !IsBlank(part) && tag == ParsePart(part) && tag.value.Some?
    ensures FirstKey(ParseParts(parts)) == Some(tag.key)
  {
    ParseFirst(part, more);
    FirstKeyOf(tag, ParseParts(more));
  }

  lemma NotBlank(text: string, c: char)
    requires c in text && !IsSpace(c)
    ensures !IsBlank(text)
  {
    assert !IsSpace(text[IndexOf(text, c)]);
  }

  lemma FirstKeyOf(tag: Tag, rest: seq<Tag>)
    requires tag.value.Some?
    ensures FirstKey([tag] + rest) == Some(tag.key)
  {
  }

  lemma VersionGood(target: Target, wantRuf: bool)
    ensures GoodEntry(Entry("v", "DMARC1"), target, wantRuf)
  {
  }

  lemma RepairReady(tags: seq<Tag>, target: Target, wantRuf: bool)
    requires GoodTags(tags) && GoodTarget(target) && VersionLeads(tags)
    ensures Ready(Repair(tags, target, wantRuf), target, wantRuf)
  {
    var kept := Keep(tags, target, wantRuf, []);
    KeepSane(tags, target, wantRuf, []);
    KeepStarts(tags, target, wantRuf, []);
    if FirstKey(tags) != Some("v") {
      KeepFind(tags, target, wantRuf, [], "v");
      VersionGood(target, wantRuf);
      InsertedSane(kept, 0, Entry("v", "DMARC1"), target, wantRuf);
    }
    CompleteReady(WithVersion(kept), target, wantRuf);
  }

  lemma EnsureKeepsDuplicate(e: seq<Entry>, at: nat, key: string, target: Target, wantRuf: bool)
    requires at <= |e| && DistinctKeys(Ensure(e, at, key, target, wantRuf))
    ensures DistinctKeys(e)
  {
    var r := Ensure(e, at, key, target, wantRuf);
    forall i, j | 0 <= i < j < |e| ensures e[i].key != e[j].key {
      if r != e {
        assert e[i] == r[if i < at then i else i + 1] && e[j] == r[if j < at then j else j + 1];
      }
    }
  }

  lemma CompleteKeepsDuplicate(e: seq<Entry>, target: Target, wantRuf: bool)
    requires DistinctKeys(Complete(e, target, wantRuf))
    ensures DistinctKeys(e)
  {
    CompleteInSteps(e, target, wantRuf);
    var e1 := AddPolicy(e, target, wantRuf);
    var e2 := AddRua(e1, target, wantRuf);
    var e3 := AddRuf(e2, target, wantRuf);
    EnsureKeepsDuplicate(e3, Behind(e3, "ruf"), "fo", target, wantRuf);
    EnsureKeepsDuplicate(e2, Behind(e2, "rua"), "ruf", target, wantRuf);
    EnsureKeepsDuplicate(e1, |e1|, "rua", target, wantRuf);
    EnsureKeepsDuplicate(e, Behind(e, "v"), "p", target, wantRuf);
  }

  /** The suggestion names a key twice exactly when the record it repairs has a version that does not lead. */
  lemma DistinctExactly(text: string, target: Target, wantRuf: bool)
    requires GoodTarget(target)
    ensures DistinctKeys(Repair(ParseTags(text), target, wantRuf)) <==> VersionLeads(ParseTags(text))
  {
    var tags := ParseTags(text);
    PartsGood(Split(text, ';'));
    if VersionLeads(tags) {
      RepairReady(tags, target, wantRuf);
    } else if DistinctKeys(Repair(tags, target, wantRuf)) {
      var kept := Keep(tags, target, wantRuf, []);
      KeepStarts(tags, target, wantRuf, []);
      KeepFind(tags, target, wantRuf, [], "v");
      var k := FindAt(kept, "v");
      assert WithVersion(kept)[0].key == WithVersion(kept)[k + 1].key;
      CompleteKeepsDuplicate(WithVersion(kept), target, wantRuf);
    }
  }

  // Repairing twice ---------------------------------------------------------------------------------------------

  lemma {:induction false} LookupEntries(entries: seq<Entry>, key: string)
    ensures Lookup(AsTags(entries), key) == Find(entries, key)
  {
    if entries != [] {
      LookupEntries(entries[1..], key);
    }
  }

  lemma {:induction false} KeepSettled(done: seq<Entry>, rest: seq<Entry>, target: Target, wantRuf: bool)
    requires DistinctKeys(done + rest) && Settled(done + rest, target, wantRuf)
    ensures Keep(AsTags(rest), target, wantRuf, done) == done + rest
    decreases |rest|
  {
    if rest == [] {
      assert done + rest == done;
    } else {
      var all := done + rest;
      forall k | 0 <= k < |done| ensures done[k].key != rest[0].key {
        assert all[k] == done[k] && all[|done|] == rest[0];
      }
      AbsentKey(done, rest[0].key);
      AsTagsFirst(rest, rest[1..]);
      assert AsTags(rest)[0] == Tag(rest[0].key, Some(rest[0].value)) && AsTags(rest)[1..] == AsTags(rest[1..]);
      assert Entry(rest[0].key, RepairValue(rest[0].key, rest[0].value, target, wantRuf)) == all[|done|];
      assert done + [rest[0]] + rest[1..] == all;
      KeepSettled(done + [rest[0]], rest[1..], target, wantRuf);
    }
  }

  lemma ReadyFixed(entries: seq<Entry>, target: Target, wantRuf: bool)
    requires Ready(entries, target, wantRuf)
    ensures Repair(AsTags(entries), target, wantRuf) == entries
  {
    assert [] + entries == entries;
    KeepSettled([], entries, target, wantRuf);
  }

  // The guarantees -------------------------------------------------------------------------------------------------

  /** The suggested record, read back. */
  function Again(text: string, target: Target, settings: Settings): seq<Tag> {
    ParseTags(Print(Repair(ParseTags(text), target, settings.WantRuf())))
  }

  lemma AgainReady(text: string, target: Target, settings: Settings)
    requires VersionLeads(ParseTags(text)) && GoodTarget(target)
    ensures var r := Repair(ParseTags(text), target, settings.WantRuf());
            Ready(r, target, settings.WantRuf()) && Again(text, target, settings) == AsTags(r)
  {
    PartsGood(Split(text, ';'));
    RepairReady(ParseTags(text), target, settings.WantRuf());
    var r := Repair(ParseTags(text), target, settings.WantRuf());
    assert "" + Print(r) == Print(r);
    PrintRoundTrip(r, "", Print(r));
  }

  lemma AgainTags(text: string, target: Target, settings: Settings)
    requires GoodTarget(target)
    ensures Again(text, target, settings) == AsTags(Repair(ParseTags(text), target, settings.WantRuf()))
  {
    var r := Repair(ParseTags(text), target, settings.WantRuf());
    AlwaysPrintable(text, target, settings.WantRuf());
    assert "" + Print(r) == Print(r);
    PrintRoundTrip(r, "", Print(r));
  }

  /** Repairing the suggestion suggests the same record, character by character. */
  lemma RepairIsStable(text: string, target: Target, settings: Settings)
    requires VersionLeads(ParseTags(text)) && GoodTarget(target)
    ensures Suggest(Again(text, target, settings), target, settings) == Suggest(ParseTags(text), target, settings)
  {
    AgainReady(text, target, settings);
    ReadyFixed(Repair(ParseTags(text), target, settings.WantRuf()), target, settings.WantRuf());
  }

  lemma EnsureFirst(e: seq<Entry>, at: nat, key: string, target: Target, wantRuf: bool)
    requires 0 < at <= |e| && GoodTarget(target) && Printable(e)
    ensures var r := Ensure(e, at, key, target, wantRuf); Printable(r) && r != [] && r[0] == e[0]
  {
    if !HasKey(e, key) && Added(key, target, wantRuf).Some? {
      AddedGood(key, target, wantRuf);
    }
  }

  lemma CompleteFirst(e: seq<Entry>, target: Target, wantRuf: bool)
    requires e != [] && GoodTarget(target) && Printable(e)
    ensures var r := Complete(e, target, wantRuf); Printable(r) && r != [] && r[0] == e[0]
  {
    CompleteInSteps(e, target, wantRuf);
    var e1 := AddPolicy(e, target, wantRuf);
    var e2 := AddRua(e1, target, wantRuf);
    var e3 := AddRuf(e2, target, wantRuf);
    EnsureFirst(e, Behind(e, "v"), "p", target, wantRuf);
    EnsureFirst(e1, |e1|, "rua", target, wantRuf);
    EnsureFirst(e2, Behind(e2, "rua"), "ruf", target, wantRuf);
    EnsureFirst(e3, Behind(e3, "ruf"), "fo", target, wantRuf);
  }

  /** Whatever is repaired, the result can be printed and read back, and starts with the version. */
  lemma AlwaysPrintable(text: string, target: Target, wantRuf: bool)
    requires GoodTarget(target)
    ensures var r := Repair(ParseTags(text), target, wantRuf); Printable(r) && r != [] && r[0].key == "v"
  {
    PartsGood(Split(text, ';'));
    TagsPrintable(ParseTags(text), target, wantRuf);
  }

  lemma TagsPrintable(tags: seq<Tag>, target: Target, wantRuf: bool)
    requires GoodTags(tags) && GoodTarget(target)
    ensures var r := Repair(tags, target, wantRuf); Printable(r) && r != [] && r[0].key == "v"
  {
    var kept := Keep(tags, target, wantRuf, []);
    KeepSane(tags, target, wantRuf, []);
    VersionPrintable(kept);
    CompleteFirst(WithVersion(kept), target, wantRuf);
  }

  lemma VersionPrintable(kept: seq<Entry>)
    requires Printable(kept)
    ensures var e := WithVersion(kept); Printable(e) && e != [] && e[0].key == "v"
  {
    assert GoodKey("v") && GoodValue("DMARC1");
  }

  lemma {:induction false} SameTags(a: seq<Entry>, b: seq<Entry>)
    requires AsTags(a) == AsTags(b)
    ensures a == b
  {
    if a != [] && b != [] {
      AsTagsFirst(a, a[1..]);
      AsTagsFirst(b, b[1..]);
      assert AsTags(a)[1..] == AsTags(a[1..]) && AsTags(b)[1..] == AsTags(b[1..]);
      assert AsTags(a)[0] == AsTags(b)[0];
      SameTags(a[1..], b[1..]);
    }
  }

  lemma SamePrint(a: seq<Entry>, b: seq<Entry>)
    requires a != [] && b != [] && Printable(a) && Printable(b) && Print(a) == Print(b)
    ensures a == b
  {
    assert "" + Print(a) == Print(a) && "" + Print(b) == Print(b);
    PrintRoundTrip(a, "", Print(a));
    PrintRoundTrip(b, "", Print(b));
    SameTags(a, b);
  }

  /** A second repair suggests the same record exactly when the version leads in the first one or is missing there; the
      program only repairs records that start with it. */
  lemma StableExactly(text: string, target: Target, settings: Settings)
    requires GoodTarget(target)
    ensures Suggest(Again(text, target, settings), target, settings) == Suggest(ParseTags(text), target, settings)
        <==> VersionLeads(ParseTags(text))
  {
    if VersionLeads(ParseTags(text)) {
      RepairIsStable(text, target, settings);
    } else {
      var r := Repair(ParseTags(text), target, settings.WantRuf());
      var again := Repair(ParseTags(Print(r)), target, settings.WantRuf());
      AlwaysPrintable(text, target, settings.WantRuf());
      AlwaysPrintable(Print(r), target, settings.WantRuf());
      FirstRead(r, Print(r), "v");
      DistinctExactly(text, target, settings.WantRuf());
      DistinctExactly(Print(r), target, settings.WantRuf());
      if Print(again) == Print(r) {
        SamePrint(again, r);
      }
    }
  }

  /** A record with the policy before the version, for every target: the suggestion has two versions, and repairing it
      suggests another one. */
  lemma TwoVersions(target: Target, settings: Settings) returns (text: string)
    requires GoodTarget(target)
    ensures !DistinctKeys(Repair(ParseTags(text), target, settings.WantRuf()))
    ensures Suggest(Again(text, target, settings), target, settings) != Suggest(ParseTags(text), target, settings)
  {
    var entries := [Entry("p", "none"), Entry("v", "DMARC1")];
    text := Print(entries);
    PolicyFirst(entries, text);
    DistinctExactly(text, target, settings.WantRuf());
    StableExactly(text, target, settings);
  }

  lemma PolicyFirst(entries: seq<Entry>, text: string)
    requires entries == [Entry("p", "none"), Entry("v", "DMARC1")] && text == Print(entries)
    ensures !VersionLeads(ParseTags(text))
  {
    LiteralsGood();
    FirstRead(entries, text, "v");
    FindSecond(entries[0], entries[1]);
    assert entries == [entries[0], entries[1]];
  }

  lemma LiteralsGood()
    ensures GoodKey("p") && GoodKey("v") && GoodValue("none") && GoodValue("DMARC1")
  {
  }

  lemma FindSecond(first: Entry, second: Entry)
    requires first.key != second.key
    ensures Find([first, second], second.key) == Some(second.value)
  {
    assert [first, second][1..] == [second];
  }

  lemma FirstRead(entries: seq<Entry>, text: string, key: string)
    requires entries != [] && Printable(entries) && text == Print(entries)
    ensures FirstKey(ParseTags(text)) == Some(entries[0].key) && Lookup(ParseTags(text), key) == Find(entries, key)
  {
    assert "" + text == text;
    PrintRoundTrip(entries, "", text);
    AsTagsFirst(entries, entries[1..]);
    FirstKeyOf(Tag(entries[0].key, Some(entries[0].value)), AsTags(entries[1..]));
    LookupEntries(entries, key);
  }

  lemma RepairFind(tags: seq<Tag>, target: Target, wantRuf: bool, key: string)
    requires key != "v"
    ensures var kept := RepairLookup(tags, key, target, wantRuf);
            Find(Repair(tags, target, wantRuf), key) == if kept.Some? then kept else Added(key, target, wantRuf)
  {
    var kept := Keep(tags, target, wantRuf, []);
    KeepFind(tags, target, wantRuf, [], key);
    VersionFind(kept, key);
    CompleteFind(WithVersion(kept), target, wantRuf, key);
  }

  lemma VersionFind(entries: seq<Entry>, key: string)
    requires key != "v"
    ensures Find(WithVersion(entries), key) == Find(entries, key)
  {
    var version := [Entry("v", "DMARC1")];
    FindAppend(version, entries, key);
    FindOne(version[0], key);
    assert InsertAt(entries, 0, version[0]) == version + entries;
  }

  /** What every key of the suggestion reads as: the repaired value of its first occurrence, or what was added. */
  lemma AgainLookup(text: string, target: Target, settings: Settings, key: string)
    requires GoodTarget(target) && key != "v"
    ensures var kept, want := RepairLookup(ParseTags(text), key, target, settings.WantRuf()), settings.WantRuf();
            Lookup(Again(text, target, settings), key) == if kept.Some? then kept else Added(key, target, want)
  {
    AgainTags(text, target, settings);
    LookupEntries(Repair(ParseTags(text), target, settings.WantRuf()), key);
    RepairFind(ParseTags(text), target, settings.WantRuf(), key);
  }

  predicate Touched(key: string, wantRuf: bool) {
    key == "v" || key == "rua" || (wantRuf && (key == "ruf" || key == "fo"))
  }

  /** Every tag that needs no repair reads as before; only a missing policy becomes none. */
  lemma TagKept(text: string, target: Target, settings: Settings, key: string)
    requires GoodTarget(target) && !Touched(key, settings.WantRuf())
    ensures Lookup(Again(text, target, settings), key)
         == if key == "p" && Lookup(ParseTags(text), key).None? then Some("none") else Lookup(ParseTags(text), key)
  {
    AgainLookup(text, target, settings, key);
  }

  lemma {:induction false} LookupGood(tags: seq<Tag>, key: string)
    requires GoodTags(tags)
    ensures Lookup(tags, key).Some? ==> GoodValue(Lookup(tags, key).value)
  {
    if tags != [] {
      LookupGood(tags[1..], key);
    }
  }

  predicate IsReportKey(key: string) { key == "rua" || key == "ruf" }

  lemma ReportValue(key: string, value: string, target: Target, wantRuf: bool)
    requires IsReportKey(key)
    ensures var repaired := RepairValue(key, value, target, wantRuf);
            if key == "rua" || wantRuf then repaired == WithAddress(value, target) else repaired == value
  {
  }

  lemma RepairedUris(key: string, value: string, target: Target, wantRuf: bool)
    requires IsReportKey(key) && ';' !in value && GoodTarget(target)
    ensures Uris(Some(value)) <= Uris(Some(RepairValue(key, value, target, wantRuf)))
  {
    ReportValue(key, value, target, wantRuf);
    WithAddressGood(value, target);
  }

  lemma NoUris()
    ensures Uris(None) == []
  {
    SplitWhole("", ',');
    assert StripAll([""]) == StripAll([]);
  }

  /** Every destination of reports survives the repair, in its place. */
  lemma DestinationsKept(text: string, target: Target, settings: Settings, key: string)
    requires GoodTarget(target) && IsReportKey(key)
    ensures Uris(Lookup(ParseTags(text), key)) <= Uris(Lookup(Again(text, target, settings), key))
  {
    var tags := ParseTags(text);
    AgainLookup(text, target, settings, key);
    match Lookup(tags, key)
    case None => NoUris();
    case Some(value) =>
      assert ';' !in value by {
        PartsGood(Split(text, ';'));
        LookupGood(tags, key);
      }
      RepairedUris(key, value, target, settings.WantRuf());
  }

  // Order ---------------------------------------------------------------------------------------------------

  /** The entries whose keys the repair neither rewrites nor adds, in their order. */
  function Others(entries: seq<Entry>, wantRuf: bool, policyToo: bool): seq<Entry> {
    if entries == [] then []
    else
      (if Touched(entries[0].key, wantRuf) || (!policyToo && entries[0].key == "p") then [] else [entries[0]])
      + Others(entries[1..], wantRuf, policyToo)
  }

  lemma {:induction false} OthersAppend(a: seq<Entry>, b: seq<Entry>, wantRuf: bool, policyToo: bool)
    ensures Others(a + b, wantRuf, policyToo) == Others(a, wantRuf, policyToo) + Others(b, wantRuf, policyToo)
  {
    if a == [] {
      assert a + b == b;
    } else {
      assert (a + b)[1..] == a[1..] + b;
      OthersAppend(a[1..], b, wantRuf, policyToo);
    }
  }

  lemma OthersInserted(entries: seq<Entry>, at: nat, entry: Entry, wantRuf: bool, policyToo: bool)
    requires at <= |entries| && (Touched(entry.key, wantRuf) || (!policyToo && entry.key == "p"))
    ensures Others(InsertAt(entries, at, entry), wantRuf, policyToo) == Others(entries, wantRuf, policyToo)
  {
    assert entries == entries[..at] + entries[at..];
    OthersAppend(entries[..at], entries[at..], wantRuf, policyToo);
    OthersAppend(entries[..at], [entry], wantRuf, policyToo);
    OthersAppend(entries[..at] + [entry], entries[at..], wantRuf, policyToo);
    assert [entry][1..] == [];
    assert Others([entry], wantRuf, policyToo) == [];
  }

  predicate SameKeys(a: seq<Entry>, b: seq<Entry>) {
    |a| == |b| && forall k :: 0 <= k < |a| ==> a[k].key == b[k].key
  }

  lemma {:induction false} SameKeysFind(a: seq<Entry>, b: seq<Entry>, key: string)
    requires SameKeys(a, b)
    ensures HasKey(a, key) <==> HasKey(b, key)
  {
    if a != [] {
      SameKeysFind(a[1..], b[1..], key);
    }
  }

  lemma UntouchedValue(key: string, value: string, target: Target, wantRuf: bool)
    requires !Touched(key, wantRuf)
    ensures RepairValue(key, value, target, wantRuf) == value
  {
  }

  lemma OthersOne(key: string, a: string, b: string, wantRuf: bool, policyToo: bool)
    requires !Touched(key, wantRuf) ==> a == b
    ensures Others([Entry(key, a)], wantRuf, policyToo) == Others([Entry(key, b)], wantRuf, policyToo)
  {
    assert [Entry(key, a)][1..] == [] && [Entry(key, b)][1..] == [];
  }

  lemma {:induction false} KeepOthers(tags: seq<Tag>, target: Target, wantRuf: bool, policyToo: bool,
                                      kept: seq<Entry>, found: seq<Entry>)
    requires SameKeys(kept, found) && Others(kept, wantRuf, policyToo) == Others(found, wantRuf, policyToo)
    ensures Others(Keep(tags, target, wantRuf, kept), wantRuf, policyToo)
         == Others(First(tags, found), wantRuf, policyToo)
  {
    if tags != [] {
      var tag := tags[0];
      SameKeysFind(kept, found, tag.key);
      if tag.value.None? || HasKey(kept, tag.key) {
        KeepOthers(tags[1..], target, wantRuf, policyToo, kept, found);
      } else {
        var repaired, written := RepairValue(tag.key, tag.value.value, target, wantRuf), tag.value.value;
        if !Touched(tag.key, wantRuf) {
          UntouchedValue(tag.key, written, target, wantRuf);
        }
        OthersOne(tag.key, repaired, written, wantRuf, policyToo);
        OthersAppend(kept, [Entry(tag.key, repaired)], wantRuf, policyToo);
        OthersAppend(found, [Entry(tag.key, written)], wantRuf, policyToo);
        KeepOthers(tags[1..], target, wantRuf, policyToo, kept + [Entry(tag.key, repaired)],
                   found + [Entry(tag.key, written)]);
      }
    }
  }

  lemma EnsureOthers(e: seq<Entry>, at: nat, key: string, target: Target, wantRuf: bool, policyToo: bool)
    requires at <= |e|
    requires Touched(key, wantRuf) || Added(key, target, wantRuf).None?
             || (key == "p" && (policyToo ==> HasKey(e, "p")))
    ensures Others(Ensure(e, at, key, target, wantRuf), wantRuf, policyToo) == Others(e, wantRuf, policyToo)
  {
    if !HasKey(e, key) && Added(key, target, wantRuf).Some? {
      OthersInserted(e, at, Entry(key, Added(key, target, wantRuf).value), wantRuf, policyToo);
    }
  }

  lemma CompleteOthers(e: seq<Entry>, target: Target, wantRuf: bool, policyToo: bool)
    requires policyToo ==> HasKey(e, "p")
    ensures Others(Complete(e, target, wantRuf), wantRuf, policyToo) == Others(e, wantRuf, policyToo)
  {
    CompleteInSteps(e, target, wantRuf);
    var e1 := AddPolicy(e, target, wantRuf);
    var e2 := AddRua(e1, target, wantRuf);
    var e3 := AddRuf(e2, target, wantRuf);
    EnsureOthers(e, Behind(e, "v"), "p", target, wantRuf, policyToo);
    EnsureOthers(e1, |e1|, "rua", target, wantRuf, policyToo);
    EnsureOthers(e2, Behind(e2, "rua"), "ruf", target, wantRuf, policyToo);
    EnsureOthers(e3, Behind(e3, "ruf"), "fo", target, wantRuf, policyToo);
  }

  /** First occurrences of every tag apart from v, rua, ruf and fo keep value and relative order; the policy is
      among them when the record has one, and otherwise is the one tag that comes in between. */
  lemma OrderKept(text: string, target: Target, wantRuf: bool, policyToo: bool)
    requires policyToo ==> Lookup(ParseTags(text), "p").Some?
    ensures Others(Repair(ParseTags(text), target, wantRuf), wantRuf, policyToo)
         == Others(First(ParseTags(text), []), wantRuf, policyToo)
  {
    var tags := ParseTags(text);
    var kept := Keep(tags, target, wantRuf, []);
    KeepOthers(tags, target, wantRuf, policyToo, [], []);
    KeepFind(tags, target, wantRuf, [], "p");
    VersionFind(kept, "p");
    if WithVersion(kept) != kept {
      OthersInserted(kept, 0, Entry("v", "DMARC1"), wantRuf, policyToo);
    }
    CompleteOthers(WithVersion(kept), target, wantRuf, policyToo);
  }
}
