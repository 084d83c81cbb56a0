/** What the words of an SPF record are read as: each term from its qualifier, name and argument. */
module SpfText {
  import opened Text
  import opened Wrappers
  import opened Spf

  // One term ---------------------------------------------------------------------------------------------

  function MechanismName(kind: Kind): string {
    match kind
    case All => "all"
    case Include => "include"
    case A => "a"
    case Mx => "mx"
    case Ptr => "ptr"
    case Ip4 => "ip4"
    case Ip6 => "ip6"
    case Exists => "exists"
  }

  predicate MayQualify(q: string) { q == "" || q == "+" || q == "-" || q == "~" || q == "?" }

  /** A qualifier in front of a text that does not start like one. */
  predicate Qualifies(q: string, body: string) {
    && MayQualify(q)
    && (q == "" && body != "" ==> body[0] != '+' && body[0] != '-' && body[0] != '~' && body[0] != '?')
  }

  /** What may follow the name of a mechanism: nothing, an argument after a colon, or a prefix length. */
  predicate IsRest(rest: string) {
    rest != "" ==> (rest[0] == ':' || rest[0] == '/') && '=' !in Before(rest, ':')
  }

  predicate IsName(name: string) { ':' !in name && '/' !in name && '=' !in name }

  function Body(term: string): string
    requires term != ""
  {
    if IsQualifier(term[0]) then term[1..] else term
  }

  lemma QualifierDrops(q: string, body: string)
    requires Qualifies(q, body) && q + body != ""
    ensures Body(q + body) == body
  {
    if q == "" {
      assert q + body == body;
    } else {
      assert (q + body)[0] == q[0] && (q + body)[1..] == body;
    }
  }

  /** The name of a term ends at the first colon or slash, and its argument follows the first colon. */
  lemma NameEnds(name: string, rest: string)
    requires IsName(name) && IsRest(rest)
    ensures '=' !in Before(name + rest, ':')
    ensures Before(Before(name + rest, ':'), '/') == name && After(name + rest, ':') == After(rest, ':')
  {
    BeforeName(name, rest, ':');
    var front := Before(rest, ':');
    BeforeName(name, front, '/');
    assert front == "" || front[0] == '/';
    assert Before(front, '/') == "";
    assert name + "" == name;
  }

  lemma MechanismNamed(name: string, kind: Kind)
    ensures KindOf(name) == Some(kind) <==> name == MechanismName(kind)
  {
    NamesDiffer();
  }

  lemma NamesDiffer()
    ensures forall a, b :: MechanismName(a) == MechanismName(b) ==> a == b
  {
    assert "all"[0] == 'a' && "a" != "all" && "ip4"[2] == '4' && "ip6"[2] == '6';
    assert "include"[0] == 'i' && "mx"[0] == 'm' && "ptr"[0] == 'p' && "exists"[0] == 'e';
    assert |"include"| == 7 && |"ip4"| == 3 && |"ip6"| == 3 && |"all"| == 3 && |"ptr"| == 3 && |"exists"| == 6;
  }

  lemma MechanismNames(kind: Kind)
    ensures IsName(MechanismName(kind)) && MechanismName(kind) != ""
  {
    assert forall c :: c in MechanismName(kind) ==> 'a' <= c <= 'z' || c == '4' || c == '6';
  }

  lemma NameOfLower(name: string)
    ensures IsName(Lower(name)) <==> IsName(name)
  {
    LowerParts(name, ':');
    LowerParts(name, '/');
    LowerParts(name, '=');
  }

  /** A mechanism is read in any letter case behind any qualifier; its argument is what follows the first colon. */
  lemma MechanismRead(q: string, name: string, kind: Kind, rest: string)
    requires MayQualify(q) && Lower(name) == MechanismName(kind) && IsRest(rest)
    ensures q + name + rest != ""
    ensures Classify(q + name + rest) == Mechanism(kind, Lower(After(rest, ':')))
  {
    MechanismNames(kind);
    NameOfLower(name);
    assert LowerChar(name[0]) == MechanismName(kind)[0];
    TermRead(q, name, rest);
    MechanismNamed(Lower(name), kind);
  }

  /** How a term without an equals sign in front of its argument is read. */
  lemma TermRead(q: string, name: string, rest: string)
    requires Qualifies(q, name + rest) && IsName(name) && IsRest(rest) && q + name + rest != ""
    ensures Classify(q + name + rest)
         == match KindOf(Lower(name))
            case Some(kind) => Mechanism(kind, Lower(After(rest, ':')))
            case None => Invalid(q + name + rest)
  {
    var body := name + rest;
    assert q + name + rest == q + body;
    QualifierDrops(q, body);
    NameEnds(name, rest);
    LowerParts(body, ':');
    LowerParts(Before(body, ':'), '/');
    LowerParts(Before(body, ':'), '=');
  }

  /** Every other name makes the term invalid. */
  lemma InvalidRead(q: string, name: string, rest: string)
    requires Qualifies(q, name + rest) && IsName(name) && IsRest(rest) && q + name + rest != ""
    requires forall kind :: Lower(name) != MechanismName(kind)
    ensures Classify(q + name + rest) == Invalid(q + name + rest)
  {
    TermRead(q, name, rest);
    if KindOf(Lower(name)).Some? {
      MechanismNamed(Lower(name), KindOf(Lower(name)).value);
    }
  }

  /** A name, an equals sign and a value are a modifier; redirect leads to its value, in lower case. */
  lemma ModifierRead(q: string, name: string, value: string)
    requires Qualifies(q, name + "=" + value) && ':' !in name && '=' !in name
    ensures Classify(q + name + "=" + value) == if Lower(name) == "redirect" then Redirect(Lower(value)) else Modifier
  {
    var body := name + ("=" + value);
    assert name + "=" + value == body && q + name + "=" + value == q + body;
    QualifierDrops(q, body);
    BeforeName(name, "=" + value, ':');
    BeforeName(name, "=" + value, '=');
    assert ("=" + value)[1..] == value;
    assert Before("=" + value, '=') == "" && After("=" + value, '=') == value;
    assert Before("=" + value, ':')[0] == '=' by {
      assert IndexOf("=" + value, ':') == 1 + IndexOf(value, ':');
    }
    assert '=' in Before(body, ':');
    assert name + "" == name;
    LowerParts(body, ':');
    LowerParts(Before(body, ':'), '=');
    LowerParts(body, '=');
  }

  /** These five cost a lookup. */
  lemma CountedExactly(kind: Kind)
    ensures Counted(kind) <==> MechanismName(kind) in ["include", "a", "mx", "ptr", "exists"]
  {
    NamesDiffer();
    assert MechanismName(Include) == "include" && MechanismName(A) == "a" && MechanismName(Mx) == "mx";
    assert MechanismName(Ptr) == "ptr" && MechanismName(Exists) == "exists";
  }

  /** Dots at the end of a name do not count. */
  lemma {:induction false} DotsTrimmed(name: string, dots: string)
    requires AreDots(dots) && (name != "" ==> name[|name| - 1] != '.')
    ensures TrimDots(name + dots) == name
  {
    if dots == "" {
      assert name + dots == name;
    } else {
      var n := |dots| - 1;
      assert (name + dots)[..|name| + n] == name + dots[..n];
      DotsTrimmed(name, dots[..n]);
    }
  }

  // A whole record ---------------------------------------------------------------------------------------------

  predicate AreWords(words: seq<string>) {
    forall k :: 0 <= k < |words| ==> IsWord(words[k])
  }

  lemma {:induction false} WordFirst(word: string, rest: string)
    requires forall k :: 0 <= k < |word| ==> !IsSpace(word[k])
    requires rest == "" || IsSpace(rest[0])
    ensures WordLength(word + rest) == |word|
  {
    if word == "" {
      assert word + rest == rest;
    } else {
      assert (word + rest)[1..] == word[1..] + rest;
      WordFirst(word[1..], rest);
    }
  }

  lemma {:induction false} WordsJoin(words: seq<string>)
    requires AreWords(words)
    ensures Words(Join(words, " ")) == words
  {
    if |words| == 1 {
      WordFirst(words[0], "");
      assert words[0] + "" == words[0];
      assert Words(words[0]) == [words[0]] + Words("");
    } else if words != [] {
      var rest := Join(words[1..], " ");
      var text := words[0] + (" " + rest);
      assert Join(words, " ") == text;
      WordFirst(words[0], " " + rest);
      WordsJoin(words[1..]);
      assert text[|words[0]|..] == " " + rest && text[..|words[0]|] == words[0];
      assert (" " + rest)[1..] == rest;
      assert Words(" " + rest) == Words(rest);
    }
  }

  lemma {:induction false} JoinTrimmed(words: seq<string>)
    requires AreWords(words) && words != []
    ensures var text := Join(words, " "); text != "" && !IsSpace(text[0]) && !IsSpace(text[|text| - 1])
  {
    if |words| > 1 {
      JoinTrimmed(words[1..]);
    }
  }

  /** A text of words is an SPF record exactly when its first word is the version, in any letter case. */
  lemma VersionExactly(words: seq<string>)
    requires AreWords(words) && words != []
    ensures IsSpf(Join(words, " ")) <==> Lower(words[0]) == "v=spf1"
  {
    JoinTrimmed(words);
    if |words| > 1 {
      VersionFirst(words[0], Join(words[1..], " "), Join(words, " "));
    } else {
      VersionAlone(words[0]);
    }
  }

  lemma NoSpaceIn(word: string)
    requires IsWord(word)
    ensures forall k :: 0 <= k < |word| ==> Lower(word)[k] != ' '
  {
  }

  lemma VersionText(version: string)
    requires version == "v=spf1 "
    ensures |version| == 7 && version[6] == ' ' && forall k :: 0 <= k < 6 ==> version[k] != ' '
    ensures version == "v=spf1" + " "
  {
  }

  lemma VersionAlone(word: string)
    requires IsWord(word)
    ensures Lower(word) == "v=spf1" || StartsWith(Lower(word), "v=spf1 ") <==> Lower(word) == "v=spf1"
  {
    NoSpaceIn(word);
    VersionText("v=spf1 ");
  }

  lemma VersionFirst(word: string, rest: string, text: string)
    requires IsWord(word) && text == word + " " + rest
    ensures Lower(text) == "v=spf1" || StartsWith(Lower(text), "v=spf1 ") <==> Lower(word) == "v=spf1"
  {
    var lowered := Lower(text);
    assert lowered == Lower(word) + (" " + Lower(rest));
    NoSpaceIn(word);
    VersionText("v=spf1 ");
    SameFirst(Lower(word), Lower(rest), lowered, "v=spf1", "v=spf1 ");
  }

  /** Of two words before a space neither goes on longer. */
  lemma SameFirst(word: string, rest: string, text: string, version: string, start: string)
    requires text == word + (" " + rest) && start == version + " "
    requires forall k :: 0 <= k < |word| ==> word[k] != ' '
    requires forall k :: 0 <= k < |version| ==> start[k] != ' '
    ensures text == version || StartsWith(text, start) <==> word == version
  {
    assert text[|word|] == ' ' && start[|version|] == ' ';
    assert forall k :: 0 <= k < |word| ==> text[k] == word[k];
    assert forall k :: 0 <= k < |version| ==> start[k] == version[k];
    if word == version {
      assert text == start + rest;
    }
    if StartsWith(text, start) {
      assert text[|version|] == start[|version|];
      assert |word| == |version|;
      assert word == text[..|word|] && version == start[..|version|] && start[..|version|] == text[..|version|];
    }
  }

  /** The terms of a record are its words after the version, each read on its own. */
  lemma RecordRead(words: seq<string>, k: nat)
    requires AreWords(words) && 0 < k < |words|
    ensures |Terms(Join(words, " "))| == |words| - 1 && Terms(Join(words, " "))[k - 1] == Classify(words[k])
  {
    TextsRead(words, Join(words, " "), words[1..]);
    EachRead(words[1..], k - 1);
  }

  lemma TextsRead(words: seq<string>, record: string, texts: seq<string>)
    requires AreWords(words) && words != [] && record == Join(words, " ") && texts == words[1..]
    ensures TermTexts(record) == texts
  {
    WordsJoin(words);
  }

  lemma {:induction false} EachRead(texts: seq<string>, k: nat)
    requires k < |texts| && forall i :: 0 <= i < |texts| ==> texts[i] != ""
    ensures |ClassifyAll(texts)| == |texts| && ClassifyAll(texts)[k] == Classify(texts[k])
  {
    if k > 0 {
      EachRead(texts[1..], k - 1);
    } else if |texts| > 1 {
      EachRead(texts[1..], 0);
    }
  }

  function Filter(texts: seq<string>, ok: string -> bool): seq<string> {
    if texts == [] then [] else (if ok(texts[0]) then [texts[0]] else []) + Filter(texts[1..], ok)
  }

  lemma {:induction false} RecordsFiltered(texts: seq<string>, ok: string -> bool)
    requires forall text :: ok(text) <==> IsSpf(text)
    ensures SpfRecords(texts) == Filter(texts, ok)
  {
    if texts != [] {
      RecordsFiltered(texts[1..], ok);
    }
  }

  predicate NoneOf(texts: seq<string>, ok: string -> bool) { forall i :: 0 <= i < |texts| ==> !ok(texts[i]) }

  predicate OnlyOne(texts: seq<string>, ok: string -> bool, k: nat) {
    k < |texts| && ok(texts[k]) && forall i :: 0 <= i < |texts| && i != k ==> !ok(texts[i])
  }

  lemma {:induction false} FilterNone(texts: seq<string>, ok: string -> bool)
    ensures Filter(texts, ok) == [] <==> NoneOf(texts, ok)
  {
    if texts != [] {
      FilterNone(texts[1..], ok);
      assert texts == [texts[0]] + texts[1..];
    }
  }

  lemma {:induction false} FilterOnly(texts: seq<string>, ok: string -> bool, k: nat)
    requires k < |texts| && ok(texts[k])
    ensures |Filter(texts, ok)| == 1 <==> OnlyOne(texts, ok, k)
    ensures OnlyOne(texts, ok, k) ==> Filter(texts, ok) == [texts[k]]
  {
    var rest := texts[1..];
    assert forall i :: 0 <= i < |rest| ==> rest[i] == texts[i + 1];
    FilterNone(rest, ok);
    if k == 0 {
      assert OnlyOne(texts, ok, 0) <==> NoneOf(rest, ok) by {
        assert forall i :: 0 < i < |texts| ==> texts[i] == rest[i - 1];
      }
    } else {
      FilterOnly(rest, ok, k - 1);
      assert OnlyOne(texts, ok, k) <==> !ok(texts[0]) && OnlyOne(rest, ok, k - 1) by {
        assert forall i :: 0 < i < |texts| ==> texts[i] == rest[i - 1];
      }
    }
  }

  /** The records among the texts of a name: none when no text is one, and one alone when only that text is. */
  lemma RecordsExactly(texts: seq<string>, k: nat)
    ensures SpfRecords(texts) == [] <==> NoneOf(texts, IsSpf)
    ensures k < |texts| && IsSpf(texts[k]) ==> (|SpfRecords(texts)| == 1 <==> OnlyOne(texts, IsSpf, k))
    ensures OnlyOne(texts, IsSpf, k) ==> SpfRecords(texts) == [texts[k]]
  {
    RecordsFiltered(texts, IsSpf);
    FilterNone(texts, IsSpf);
    if k < |texts| && IsSpf(texts[k]) {
      FilterOnly(texts, IsSpf, k);
    }
  }

  lemma ReadIs(texts: seq<string>, records: seq<string>, reading: Reading)
    requires records == SpfRecords(texts) && reading == Read(Records(texts))
    ensures reading.Missing? <==> records == []
    ensures |records| == 1 ==> reading == Single(Terms(records[0]))
    ensures |records| > 1 ==> reading.Ambiguous?
  {
  }

  lemma NotNone(texts: seq<string>, ok: string -> bool, k: nat)
    requires k < |texts| && ok(texts[k])
    ensures !NoneOf(texts, ok)
  {
  }

  /** What a name means for the walk: its one record, no record, several, or no answer. */
  lemma ReadExactly(texts: seq<string>, k: nat)
    ensures Read(Failed) == Unreachable
    ensures Read(Records(texts)) == Missing <==> NoneOf(texts, IsSpf)
    ensures OnlyOne(texts, IsSpf, k) ==> Read(Records(texts)) == Single(Terms(texts[k]))
    ensures k < |texts| && IsSpf(texts[k]) && !OnlyOne(texts, IsSpf, k) ==> Read(Records(texts)) == Ambiguous
  {
    RecordsFiltered(texts, IsSpf);
    ReadIs(texts, SpfRecords(texts), Read(Records(texts)));
    FilterNone(texts, IsSpf);
    if k < |texts| && IsSpf(texts[k]) {
      NotNone(texts, IsSpf, k);
      FilterOnly(texts, IsSpf, k);
    }
  }
}
