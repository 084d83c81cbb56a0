/** When a source rule applies to an address, and which one gives the reason. */
module SourceRules {
  import opened Text
  import opened Wrappers
  import opened Classification

  // Networks and countries --------------------------------------------------------------------------------

  /** The text is the number, in any letter case, with AS in front or not, and with white space around it. */
  predicate SpellsNetwork(text: string, number: string) {
    var name := Upper(Strip(text));
    name == "AS" + number || (name == number && !StartsWith(name, "AS"))
  }

  predicate InNetwork(evidence: Evidence, rules: Rules, number: string) {
    number != "" && number in rules.asns && SpellsNetwork(evidence.asn, number)
  }

  predicate InCountry(evidence: Evidence, rules: Rules, country: string) {
    country != "" && country in rules.countries && Upper(Strip(evidence.country)) == country
  }

  lemma NetworkSpelt(evidence: Evidence, number: string)
    ensures SpellsNetwork(evidence.asn, number) <==> Asn(evidence) == number
  {
    var name := Upper(Strip(evidence.asn));
    assert ("AS" + number)[..2] == "AS" && ("AS" + number)[2..] == number;
    if StartsWith(name, "AS") {
      assert name == "AS" + name[2..];
    }
  }

  lemma UpperSpelt(prefix: string, number: string)
    requires prefix in ["", "AS", "As", "aS", "as"]
    requires number != "" && forall k :: 0 <= k < |number| ==> '0' <= number[k] <= '9'
    ensures var name := Upper(prefix + number);
            name == "AS" + number || (name == number && !StartsWith(name, "AS"))
  {
    var name := Upper(prefix + number);
    if prefix == "" {
      assert name == number && name[0] == number[0];
    } else {
      assert |prefix| == 2 && Upper(prefix) == "AS";
      assert name == Upper(prefix) + number;
    }
  }

  /** A number of digits is read whatever stands around it. */
  lemma NetworkRead(lead: string, prefix: string, number: string, trail: string, evidence: Evidence)
    requires IsBlank(lead) && IsBlank(trail) && prefix in ["", "AS", "As", "aS", "as"]
    requires number != "" && forall k :: 0 <= k < |number| ==> '0' <= number[k] <= '9'
    requires evidence.asn == lead + (prefix + number) + trail
    ensures Asn(evidence) == number
  {
    CoreTrimmed(prefix, number);
    StripPadded(lead, prefix + number, trail);
    UpperSpelt(prefix, number);
    NetworkSpelt(evidence, number);
  }

  lemma CoreTrimmed(prefix: string, number: string)
    requires prefix in ["", "AS", "As", "aS", "as"]
    requires number != "" && forall k :: 0 <= k < |number| ==> '0' <= number[k] <= '9'
    ensures Trimmed(prefix + number)
  {
    var core := prefix + number;
    assert core[|core| - 1] == number[|number| - 1];
    assert core[0] == if prefix == "" then number[0] else prefix[0];
  }

  // Hosts -------------------------------------------------------------------------------------------------

  /** The last labels of the host are those of the pattern. */
  predicate HasLabels(host: string, pattern: string) {
    var labels, wanted := Split(host, '.'), Split(pattern, '.');
    |wanted| <= |labels| && labels[|labels| - |wanted|..] == wanted
  }

  lemma SuffixSplit(front: string, pattern: string)
    ensures Split(front + "." + pattern, '.') == Split(front, '.') + Split(pattern, '.')
  {
    var parts := Split(front, '.') + Split(pattern, '.');
    JoinSplit(front, '.');
    JoinSplit(pattern, '.');
    JoinMore(Split(front, '.'), Split(pattern, '.'), ".");
    SplitJoin(parts, '.');
  }

  lemma LabelsExactly(host: string, pattern: string)
    ensures HasLabels(host, pattern) <==> host == pattern || EndsWith(host, "." + pattern)
  {
    var labels, wanted := Split(host, '.'), Split(pattern, '.');
    if host != pattern && EndsWith(host, "." + pattern) {
      var front := host[..|host| - |pattern| - 1];
      assert host == front + "." + pattern;
      SuffixSplit(front, pattern);
    }
    if HasLabels(host, pattern) {
      JoinSplit(host, '.');
      JoinSplit(pattern, '.');
      var n := |labels| - |wanted|;
      if n > 0 {
        assert labels == labels[..n] + wanted;
        JoinMore(labels[..n], wanted, ".");
        EndsSo(Join(labels[..n], "."), pattern, host);
      } else {
        assert labels == wanted;
      }
    }
  }

  lemma EndsSo(front: string, pattern: string, host: string)
    requires host == front + "." + pattern
    ensures EndsWith(host, "." + pattern)
  {
    assert host == front + ("." + pattern);
  }

  /** host[i..j] is a word: letters and digits between other characters or the ends; nothing at an end is one, too. */
  predicate WordAt(host: string, i: nat, j: nat) {
    && i <= j <= |host|
    && (forall k :: i <= k < j ==> IsTokenChar(host[k]))
    && (i > 0 ==> !IsTokenChar(host[i - 1])) && (j < |host| ==> !IsTokenChar(host[j]))
    && (i == j ==> i == 0 || i == |host|)
  }

  ghost predicate HasWord(host: string, word: string) {
    exists i: nat, j: nat :: WordAt(host, i, j) && host[i..j] == word
  }

  lemma {:induction false} RunIs(s: string, token: bool)
    ensures forall k :: 0 <= k < Run(s, token) ==> IsTokenChar(s[k]) == token
  {
    if s != "" && IsTokenChar(s[0]) == token {
      RunIs(s[1..], token);
      assert forall k :: 0 < k < |s| ==> s[k] == s[1..][k - 1];
    }
  }

  /** Behind a character of no word, the words are those of the rest. */
  lemma WordsShift(host: string, rest: string, from: nat, i: nat, j: nat)
    requires 0 < from <= i <= j <= |host| && rest == host[from..]
    requires !IsTokenChar(host[from - 1]) && (rest != "" ==> IsTokenChar(rest[0]))
    ensures WordAt(host, i, j) <==> WordAt(rest, i - from, j - from)
  {
    assert forall k :: 0 <= k < |rest| ==> rest[k] == host[from + k];
    assert forall k :: from <= k < |host| ==> host[k] == rest[k - from];
  }

  /** Before that, the only word is the first piece. */
  lemma FirstWord(host: string, n: nat, from: nat, i: nat, j: nat)
    requires n < from <= |host| && i < from && i <= j <= |host|
    requires forall k :: 0 <= k < n ==> IsTokenChar(host[k])
    requires forall k :: n <= k < from ==> !IsTokenChar(host[k])
    ensures WordAt(host, i, j) <==> i == 0 && j == n
  {
    assert !IsTokenChar(host[n]);
    assert i >= n ==> !IsTokenChar(host[i]);
  }

  lemma Pieces(host: string, tail: string, n: nat, from: nat)
    requires n == Run(host, true) < |host| && tail == host[n..] && from == n + Run(tail, false)
    ensures n < from <= |host|
    ensures forall k :: 0 <= k < n ==> IsTokenChar(host[k])
    ensures forall k :: n <= k < from ==> !IsTokenChar(host[k])
    ensures from < |host| ==> IsTokenChar(host[from])
  {
    RunIs(host, true);
    RunIs(tail, false);
    assert tail[0] == host[n];
    forall k | n <= k < from ensures !IsTokenChar(host[k]) {
      assert host[k] == tail[k - n];
    }
    if from < |host| {
      assert host[from] == tail[from - n];
    }
  }

  lemma WordBack(host: string, rest: string, from: nat, i: nat, j: nat, word: string)
    requires 0 < from <= |host| && rest == host[from..] && WordAt(rest, i, j) && rest[i..j] == word
    requires !IsTokenChar(host[from - 1]) && (rest != "" ==> IsTokenChar(rest[0]))
    ensures HasWord(host, word)
  {
    WordsShift(host, rest, from, from + i, from + j);
    assert host[from + i..from + j] == rest[i..j];
    assert WordAt(host, from + i, from + j);
  }

  lemma WordForth(host: string, rest: string, from: nat, i: nat, j: nat, word: string)
    requires 0 < from <= i && WordAt(host, i, j) && host[i..j] == word && rest == host[from..]
    requires !IsTokenChar(host[from - 1]) && (rest != "" ==> IsTokenChar(rest[0]))
    ensures HasWord(rest, word)
  {
    WordsShift(host, rest, from, i, j);
    assert rest[i - from..j - from] == host[i..j];
    assert WordAt(rest, i - from, j - from);
  }

  lemma HasWordNext(host: string, word: string, n: nat, from: nat, rest: string, first: string)
    requires n < from <= |host| && rest == host[from..] && (rest != "" ==> IsTokenChar(rest[0]))
    requires first == host[..n]
    requires forall k :: 0 <= k < n ==> IsTokenChar(host[k])
    requires forall k :: n <= k < from ==> !IsTokenChar(host[k])
    ensures HasWord(host, word) <==> word == first || HasWord(rest, word)
  {
    FirstWord(host, n, from, 0, n);
    assert host[0..n] == first;
    if HasWord(rest, word) {
      var i: nat, j: nat :| WordAt(rest, i, j) && rest[i..j] == word;
      WordBack(host, rest, from, i, j, word);
    }
    if HasWord(host, word) {
      var i: nat, j: nat :| WordAt(host, i, j) && host[i..j] == word;
      if i < from {
        FirstWord(host, n, from, i, j);
      } else {
        WordForth(host, rest, from, i, j, word);
      }
    }
  }

  lemma TokensNext(host: string, tail: string, n: nat, from: nat)
    requires n == Run(host, true) < |host| && tail == host[n..] && from == n + Run(tail, false)
    ensures Tokens(host) == [host[..n]] + Tokens(host[from..])
  {
  }

  lemma {:induction false} TokensExactly(host: string, word: string)
    ensures word in Tokens(host) <==> HasWord(host, word)
    decreases |host|
  {
    var n := Run(host, true);
    if n == |host| {
      OneWord(host, word);
    } else {
      var tail := host[n..];
      var from := n + Run(tail, false);
      Pieces(host, tail, n, from);
      var first, rest := host[..n], host[from..];
      assert rest != "" ==> rest[0] == host[from];
      TokensNext(host, tail, n, from);
      TokensExactly(rest, word);
      HasWordNext(host, word, n, from, rest, first);
      assert word in [first] + Tokens(rest) <==> word == first || word in Tokens(rest);
    }
  }

  lemma OneWord(host: string, word: string)
    requires Run(host, true) == |host|
    ensures word in Tokens(host) <==> HasWord(host, word)
  {
    RunIs(host, true);
    assert host[0..|host|] == host;
    assert WordAt(host, 0, |host|);
    assert Tokens(host) == [host];
    if HasWord(host, word) {
      var i: nat, j: nat :| WordAt(host, i, j) && host[i..j] == word;
      assert i == 0 && j == |host|;
    }
  }

  /** A pattern with a dot fits a host that ends in its labels, one without a host that has it as a word. */
  ghost predicate Fits(host: string, pattern: string) {
    if '.' in pattern then HasLabels(host, pattern) else HasWord(host, pattern)
  }

  lemma FitsExactly(host: string, pattern: string)
    ensures Fits(host, pattern) <==> HostMatches(host, pattern)
  {
    LabelsExactly(host, pattern);
    TokensExactly(host, pattern);
  }

  /** The first pattern that fits is the k-th. */
  ghost predicate FirstFit(host: string, patterns: seq<string>, k: nat) {
    k < |patterns| && Fits(host, patterns[k]) && forall j :: 0 <= j < k ==> !Fits(host, patterns[j])
  }

  lemma {:induction false} PatternExactly(host: string, patterns: seq<string>)
    ensures FirstPattern(host, patterns).None? <==> forall k :: 0 <= k < |patterns| ==> !Fits(host, patterns[k])
    ensures FirstPattern(host, patterns).Some? ==>
              exists k: nat :: FirstFit(host, patterns, k) && patterns[k] == FirstPattern(host, patterns).value
  {
    if patterns != [] {
      var rest := patterns[1..];
      FitsExactly(host, patterns[0]);
      PatternExactly(host, rest);
      assert forall k :: 0 < k < |patterns| ==> patterns[k] == rest[k - 1];
      if Fits(host, patterns[0]) {
        assert FirstFit(host, patterns, 0);
      } else if FirstPattern(host, rest).Some? {
        var k: nat :| FirstFit(host, rest, k) && rest[k] == FirstPattern(host, patterns).value;
        assert FirstFit(host, patterns, k + 1);
      }
    }
  }

  // The host name ------------------------------------------------------------------------------------------

  lemma {:induction false} DotsTrimmed(front: string, name: string, back: string)
    requires AreDots(front) && AreDots(back) && name != "" && name[0] != '.' && name[|name| - 1] != '.'
    ensures Classification.TrimDots(front + name + back) == name
    decreases |front| + |back|
  {
    var text := front + name + back;
    if front != "" {
      assert text[1..] == front[1..] + name + back;
      DotsTrimmed(front[1..], name, back);
    } else if back != "" {
      assert text[0] == name[0] && text[|text| - 1] == '.';
      assert text[..|text| - 1] == front + name + back[..|back| - 1];
      DotsTrimmed(front, name, back[..|back| - 1]);
    } else {
      assert text == name;
    }
  }

  /** The host of the evidence without white space and dots around it, in lower case. */
  function HostOf(evidence: Evidence): string { Lower(Classification.TrimDots(Strip(evidence.host))) }

  lemma HostRead(lead: string, front: string, name: string, back: string, trail: string, evidence: Evidence)
    requires IsBlank(lead) && IsBlank(trail) && AreDots(front) && AreDots(back)
    requires name != "" && name[0] != '.' && name[|name| - 1] != '.' && Trimmed(name)
    requires evidence.host == lead + (front + name + back) + trail
    ensures HostOf(evidence) == Lower(name)
  {
    var core := front + name + back;
    assert core[0] == if front == "" then name[0] else '.';
    assert core[|core| - 1] == if back == "" then name[|name| - 1] else '.';
    StripPadded(lead, core, trail);
    DotsTrimmed(front, name, back);
  }

  // The rule -----------------------------------------------------------------------------------------------

  predicate RulesOpen(passCount: int, rules: Rules) { rules.enabled && passCount <= rules.maxPassed }

  ghost predicate SomeNetwork(evidence: Evidence, rules: Rules) {
    exists number :: InNetwork(evidence, rules, number)
  }

  ghost predicate SomeCountry(evidence: Evidence, rules: Rules) {
    exists country :: InCountry(evidence, rules, country)
  }

  ghost predicate SomePattern(evidence: Evidence, rules: Rules) {
    HostOf(evidence) != "" && exists k :: 0 <= k < |rules.patterns| && Fits(HostOf(evidence), rules.patterns[k])
  }

  lemma NetworkExactly(evidence: Evidence, rules: Rules, number: string)
    ensures InNetwork(evidence, rules, number)
        <==> number == Asn(evidence) && Asn(evidence) != "" && Asn(evidence) in rules.asns
    ensures SomeNetwork(evidence, rules) <==> Asn(evidence) != "" && Asn(evidence) in rules.asns
  {
    NetworkSpelt(evidence, number);
    NetworkSpelt(evidence, Asn(evidence));
    forall other ensures InNetwork(evidence, rules, other) ==> other == Asn(evidence) {
      NetworkSpelt(evidence, other);
    }
    if Asn(evidence) != "" && Asn(evidence) in rules.asns {
      assert InNetwork(evidence, rules, Asn(evidence));
    }
  }

  lemma CountryExactly(evidence: Evidence, rules: Rules)
    ensures SomeCountry(evidence, rules)
        <==> Upper(Strip(evidence.country)) != "" && Upper(Strip(evidence.country)) in rules.countries
  {
    if Upper(Strip(evidence.country)) != "" && Upper(Strip(evidence.country)) in rules.countries {
      assert InCountry(evidence, rules, Upper(Strip(evidence.country)));
    }
  }

  /** A rule applies exactly when the rules are on, no more messages than allowed have passed, and the network, the
      country or the host of the address is listed. */
  lemma AppliesExactly(passCount: int, evidence: Evidence, rules: Rules)
    ensures Match(passCount, evidence, rules).Some?
        <==> RulesOpen(passCount, rules)
             && (SomeNetwork(evidence, rules) || SomeCountry(evidence, rules) || SomePattern(evidence, rules))
  {
    NetworkExactly(evidence, rules, "");
    CountryExactly(evidence, rules);
    PatternExactly(HostOf(evidence), rules.patterns);
  }

  /** The network comes first, then the country, then the first pattern in order; the reason names what was found. */
  lemma ReasonExactly(passCount: int, evidence: Evidence, rules: Rules, number: string, country: string, k: nat)
    requires RulesOpen(passCount, rules)
    ensures InNetwork(evidence, rules, number) ==>
              Match(passCount, evidence, rules) == Some(RuleNetwork(number, evidence.operator))
    ensures InCountry(evidence, rules, country) && !SomeNetwork(evidence, rules) ==>
              Match(passCount, evidence, rules) == Some(RuleCountry(country))
    ensures HostOf(evidence) != "" && FirstFit(HostOf(evidence), rules.patterns, k)
            && !SomeNetwork(evidence, rules) && !SomeCountry(evidence, rules) ==>
              Match(passCount, evidence, rules) == Some(RuleHost(HostOf(evidence), rules.patterns[k]))
  {
    var host := HostOf(evidence);
    NetworkExactly(evidence, rules, number);
    CountryExactly(evidence, rules);
    if FirstFit(host, rules.patterns, k) {
      PatternExactly(host, rules.patterns);
      var j: nat :| FirstFit(host, rules.patterns, j) && rules.patterns[j] == FirstPattern(host, rules.patterns).value;
      assert j == k;
    }
  }
}
