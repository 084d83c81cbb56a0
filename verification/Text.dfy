/** String operations the record parsers share, as Python's str type defines them.
    Lower case is the one of ASCII; white space is every character Python strips and splits at. */
module Text {

  predicate IsSpace(c: char) {
    var n := c as int;
    || 0x09 <= n <= 0x0D || 0x1C <= n <= 0x20 || n == 0x85 || n == 0xA0 || n == 0x1680
    || 0x2000 <= n <= 0x200A || n == 0x2028 || n == 0x2029 || n == 0x202F || n == 0x205F || n == 0x3000
  }

  predicate IsBlank(s: string) {
    forall k :: 0 <= k < |s| ==> IsSpace(s[k])
  }

  /** Neither end of the text is white space; the empty text is trimmed. */
  predicate Trimmed(s: string) {
    s != "" ==> !IsSpace(s[0]) && !IsSpace(s[|s| - 1])
  }

  // Trimming ---------------------------------------------------------------------------

  lemma BlankRest(s: string)
    requires s != ""
    ensures IsBlank(s) <==> IsSpace(s[0]) && IsBlank(s[1..])
  {
    if IsSpace(s[0]) && IsBlank(s[1..]) {
      forall k | 0 <= k < |s| ensures IsSpace(s[k]) {
        assert k > 0 ==> s[k] == s[1..][k - 1];
      }
    }
  }

  lemma BlankFront(s: string)
    requires s != ""
    ensures IsBlank(s) <==> IsSpace(s[|s| - 1]) && IsBlank(s[..|s| - 1])
  {
    if IsSpace(s[|s| - 1]) && IsBlank(s[..|s| - 1]) {
      forall k | 0 <= k < |s| ensures IsSpace(s[k]) {
        assert k < |s| - 1 ==> s[k] == s[..|s| - 1][k];
      }
    }
  }

  function LStrip(s: string): (r: string)
    ensures |r| <= |s| && r == s[|s| - |r|..]
    ensures r != "" ==> !IsSpace(r[0])
    ensures s != "" && !IsSpace(s[0]) ==> r == s
    ensures r == "" <==> IsBlank(s)
  {
    if s != "" && IsSpace(s[0]) then
      var r := LStrip(s[1..]);
      BlankRest(s);
      assert r == s[|s| - |r|..];
      r
    else s
  }

  function RStrip(s: string): (r: string)
    ensures |r| <= |s| && r == s[..|r|]
    ensures r != "" ==> !IsSpace(r[|r| - 1])
    ensures s != "" && !IsSpace(s[|s| - 1]) ==> r == s
    ensures r == "" <==> IsBlank(s)
  {
    if s != "" && IsSpace(s[|s| - 1]) then
      var r := RStrip(s[..|s| - 1]);
      BlankFront(s);
      assert r == s[..|r|];
      r
    else s
  }

  function Strip(s: string): (r: string)
    ensures Trimmed(r)
    ensures Trimmed(s) ==> r == s
    ensures r == "" <==> IsBlank(s)
    ensures forall c :: c in r ==> c in s
  {
    RStrip(LStrip(s))
  }

  /** A leading space is all that the printer puts in front of a trimmed text. */
  lemma StripAfterSpace(s: string)
    requires Trimmed(s)
    ensures Strip(" " + s) == s
  {
    var t := " " + s;
    assert t[1..] == s;
    assert LStrip(t) == LStrip(s) == s;
  }

  lemma {:induction false} LStripPadded(lead: string, rest: string)
    requires IsBlank(lead)
    ensures LStrip(lead + rest) == LStrip(rest)
  {
    if lead == "" {
      assert lead + rest == rest;
    } else {
      assert (lead + rest)[1..] == lead[1..] + rest;
      BlankRest(lead);
      LStripPadded(lead[1..], rest);
    }
  }

  lemma {:induction false} RStripPadded(rest: string, trail: string)
    requires IsBlank(trail)
    ensures RStrip(rest + trail) == RStrip(rest)
  {
    if trail == "" {
      assert rest + trail == rest;
    } else {
      var n := |trail| - 1;
      assert (rest + trail)[..|rest| + n] == rest + trail[..n];
      BlankFront(trail);
      RStripPadded(rest, trail[..n]);
    }
  }

  lemma StripRight(core: string, text: string, trail: string)
    requires IsBlank(trail) && Trimmed(core) && text == core + trail
    ensures Strip(text) == core
  {
    if core == "" {
      assert text == trail;
    } else {
      assert text[0] == core[0];
      assert LStrip(text) == text;
      RStripPadded(core, trail);
      assert RStrip(core) == core;
    }
  }

  /** White space around a trimmed text is what stripping takes away. */
  lemma StripPadded(lead: string, core: string, trail: string)
    requires IsBlank(lead) && IsBlank(trail) && Trimmed(core)
    ensures Strip(lead + core + trail) == core
  {
    var text := core + trail;
    assert lead + core + trail == lead + text;
    LStripPadded(lead, text);
    StripRight(core, text, trail);
  }

  // Letters ------------------------------------------------------------------------------

  function LowerChar(c: char): char {
    if 'A' <= c <= 'Z' then (c as int + 32) as char else c
  }

  function Lower(s: string): (r: string)
    ensures |r| == |s|
    ensures forall k :: 0 <= k < |s| ==> r[k] == LowerChar(s[k])
  {
    seq(|s|, k requires 0 <= k < |s| => LowerChar(s[k]))
  }

  predicate IsLower(s: string) {
    forall k :: 0 <= k < |s| ==> LowerChar(s[k]) == s[k]
  }

  lemma LowerFixed(s: string)
    ensures IsLower(Lower(s))
    ensures IsLower(s) ==> Lower(s) == s
    ensures Trimmed(s) ==> Trimmed(Lower(s))
  {
  }

  function UpperChar(c: char): char {
    if 'a' <= c <= 'z' then (c as int - 32) as char else c
  }

  function Upper(s: string): string {
    seq(|s|, k requires 0 <= k < |s| => UpperChar(s[k]))
  }

  predicate EndsWith(s: string, suffix: string) {
    |suffix| <= |s| && s[|s| - |suffix|..] == suffix
  }

  // Searching and splitting ---------------------------------------------------------------

  /** Position of the first c, or the length of s. */
  function IndexOf(s: string, c: char): (i: nat)
    ensures i <= |s|
    ensures i < |s| ==> s[i] == c
    ensures c !in s[..i]
    ensures i == |s| <==> c !in s
  {
    if s == "" || s[0] == c then 0 else 1 + IndexOf(s[1..], c)
  }

  function Before(s: string, c: char): string {
    s[..IndexOf(s, c)]
  }

  /** What follows the first c; empty when there is none. */
  function After(s: string, c: char): string {
    var i := IndexOf(s, c);
    if i < |s| then s[i + 1..] else ""
  }

  predicate AreDots(text: string) { forall k :: 0 <= k < |text| ==> text[k] == '.' }

  function Split(s: string, c: char): (parts: seq<string>)
    ensures parts != []
    ensures forall k :: 0 <= k < |parts| ==> c !in parts[k]
    decreases |s|
  {
    var i := IndexOf(s, c);
    if i == |s| then [s] else [s[..i]] + Split(s[i + 1..], c)
  }

  /** Splitting brings no new characters. */
  lemma {:induction false} SplitKeeps(s: string, c: char, d: char)
    requires d !in s
    ensures forall k :: 0 <= k < |Split(s, c)| ==> d !in Split(s, c)[k]
    decreases |s|
  {
    var i := IndexOf(s, c);
    if i < |s| {
      SplitKeeps(s[i + 1..], c, d);
    }
  }

  predicate Contains(s: string, sub: string) {
    sub <= s || (s != "" && Contains(s[1..], sub))
  }

  predicate StartsWith(s: string, prefix: string) {
    prefix <= s
  }

  /** Length of the leading word. */
  function WordLength(s: string): (n: nat)
    ensures n <= |s|
    ensures s != "" && !IsSpace(s[0]) ==> n > 0
    ensures forall k :: 0 <= k < n ==> !IsSpace(s[k])
    ensures n < |s| ==> IsSpace(s[n])
  {
    if s == "" || IsSpace(s[0]) then 0 else 1 + WordLength(s[1..])
  }

  predicate IsWord(w: string) {
    w != "" && forall k :: 0 <= k < |w| ==> !IsSpace(w[k])
  }

  /** The words of s, as str.split() without an argument finds them. */
  function Words(s: string): (words: seq<string>)
    ensures forall k :: 0 <= k < |words| ==> IsWord(words[k])
    decreases |s|
  {
    if s == "" then []
    else if IsSpace(s[0]) then Words(s[1..])
    else [s[..WordLength(s)]] + Words(s[WordLength(s)..])
  }

  function Join(parts: seq<string>, separator: string): string {
    if parts == [] then ""
    else if |parts| == 1 then parts[0]
    else parts[0] + separator + Join(parts[1..], separator)
  }

  lemma JoinFirst(head: string, more: seq<string>, separator: string)
    requires more != []
    ensures Join([head] + more, separator) == head + separator + Join(more, separator)
  {
    assert ([head] + more)[1..] == more;
  }

  lemma Rejoined(s: string, i: nat, head: string, rest: string)
    requires i < |s| && head == s[..i] && rest == s[i + 1..]
    ensures head + [s[i]] + rest == s
  {
  }

  lemma {:induction false} JoinSplit(s: string, c: char)
    ensures Join(Split(s, c), [c]) == s
    decreases |s|
  {
    var i := IndexOf(s, c);
    if i < |s| {
      var head, rest := s[..i], s[i + 1..];
      JoinSplit(rest, c);
      JoinFirst(head, Split(rest, c), [c]);
      Rejoined(s, i, head, rest);
    }
  }

  lemma {:induction false} JoinMore(a: seq<string>, b: seq<string>, separator: string)
    requires a != [] && b != []
    ensures Join(a + b, separator) == Join(a, separator) + separator + Join(b, separator)
  {
    if |a| == 1 {
      assert (a + b)[1..] == b;
    } else {
      assert (a + b)[1..] == a[1..] + b;
      JoinMore(a[1..], b, separator);
      var x, y := Join(a[1..], separator), Join(b, separator);
      assert a[0] + separator + (x + separator + y) == a[0] + separator + x + separator + y;
    }
  }

  /** Splitting undoes joining when no part holds the separator. */
  lemma {:induction false} SplitJoin(parts: seq<string>, c: char)
    requires parts != []
    requires forall k :: 0 <= k < |parts| ==> c !in parts[k]
    ensures Split(Join(parts, [c]), c) == parts
  {
    var text := Join(parts, [c]);
    if |parts| > 1 {
      var rest := Join(parts[1..], [c]);
      assert text == parts[0] + ([c] + rest);
      IndexAfter(parts[0], c, rest);
      assert text[..|parts[0]|] == parts[0] && text[|parts[0]| + 1..] == rest;
      SplitJoin(parts[1..], c);
    }
  }

  lemma {:induction false} IndexAfter(head: string, c: char, tail: string)
    requires c !in head
    ensures IndexOf(head + [c] + tail, c) == |head|
  {
    var s := head + [c] + tail;
    if head != "" {
      assert s[1..] == head[1..] + [c] + tail;
      IndexAfter(head[1..], c, tail);
    }
  }

  lemma {:induction false} IndexPast(name: string, rest: string, c: char)
    requires c !in name
    ensures IndexOf(name + rest, c) == |name| + IndexOf(rest, c)
  {
    if name == "" {
      assert name + rest == rest;
    } else {
      IndexPast(name[1..], rest, c);
      assert (name + rest)[1..] == name[1..] + rest;
    }
  }

  lemma BeforeName(name: string, rest: string, c: char)
    requires c !in name
    ensures Before(name + rest, c) == name + Before(rest, c) && After(name + rest, c) == After(rest, c)
  {
    var text, n, i := name + rest, |name|, IndexOf(rest, c);
    IndexPast(name, rest, c);
    assert text[..n + i] == name + rest[..i];
    if i < |rest| {
      assert text[n + i + 1..] == rest[i + 1..];
    }
  }

  lemma {:induction false} LowerIndex(text: string, c: char)
    requires LowerChar(c) == c && !('a' <= c <= 'z')
    ensures IndexOf(Lower(text), c) == IndexOf(text, c)
  {
    if text != "" {
      assert Lower(text)[1..] == Lower(text[1..]);
      LowerIndex(text[1..], c);
    }
  }

  lemma LowerSlice(text: string, from: nat, to: nat)
    requires from <= to <= |text|
    ensures Lower(text)[from..to] == Lower(text[from..to])
  {
  }

  lemma LowerParts(text: string, c: char)
    requires LowerChar(c) == c && !('a' <= c <= 'z')
    ensures Before(Lower(text), c) == Lower(Before(text, c)) && After(Lower(text), c) == Lower(After(text, c))
    ensures c in Lower(text) <==> c in text
  {
    var lowered, i := Lower(text), IndexOf(text, c);
    LowerIndex(text, c);
    LowerSlice(text, 0, i);
    assert lowered[0..i] == lowered[..i] && text[0..i] == text[..i];
    if i < |text| {
      LowerSlice(text, i + 1, |text|);
      assert lowered[i + 1..|text|] == lowered[i + 1..] && text[i + 1..|text|] == text[i + 1..];
    }
    assert c in lowered <==> IndexOf(lowered, c) < |lowered|;
  }

  // Text a database takes ----------------------------------------------------------------

  predicate IsControl(c: char) {
    var n := c as int;
    n <= 0x08 || n == 0x0B || n == 0x0C || 0x0E <= n <= 0x1F || n == 0x7F
  }

  predicate NoControls(text: string) {
    forall k :: 0 <= k < |text| ==> !IsControl(text[k])
  }

  function DropControls(text: string): string {
    if text == "" then "" else (if IsControl(text[0]) then "" else [text[0]]) + DropControls(text[1..])
  }

  lemma {:induction false} NothingToDrop(text: string)
    ensures |DropControls(text)| <= |text| && NoControls(DropControls(text))
    ensures DropControls(text) == text <==> NoControls(text)
  {
    if text != "" {
      NothingToDrop(text[1..]);
      if !IsControl(text[0]) {
        assert text == [text[0]] + text[1..];
        assert DropControls(text)[1..] == DropControls(text[1..]);
        assert forall k :: 0 < k < |text| ==> text[k] == text[1..][k - 1];
      }
    }
  }

  lemma DropFirst(c: char, rest: string)
    ensures DropControls([c] + rest) == (if IsControl(c) then "" else [c]) + DropControls(rest)
  {
    assert ([c] + rest)[1..] == rest;
  }

  lemma Glued(a: string, b: string, rest: string)
    requires a != "" && rest == a[1..]
    ensures a + b == [a[0]] + (rest + b)
  {
    assert a == [a[0]] + rest;
  }

  lemma Regrouped(x: string, y: string, z: string)
    ensures x + (y + z) == x + y + z
  {
  }

  /** Dropping goes through the parts of a text. */
  lemma {:induction false} DropControlsParts(a: string, b: string)
    ensures DropControls(a + b) == DropControls(a) + DropControls(b)
  {
    if a == "" {
      assert a + b == b;
    } else {
      var rest, first := a[1..], if IsControl(a[0]) then "" else [a[0]];
      Glued(a, b, rest);
      DropFirst(a[0], rest + b);
      DropControlsParts(rest, b);
      Regrouped(first, DropControls(rest), DropControls(b));
    }
  }

  /** It takes a single character exactly when that is a control. */
  lemma DropOne(c: char)
    ensures DropControls([c]) == if IsControl(c) then "" else [c]
  {
    assert [c][1..] == "";
  }
}
