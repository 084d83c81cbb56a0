/** Cutting the failure details of a TLS report down to a limit: which survive, and that no other cut covers more. */
module TlsReports {

  datatype Failure = Failure(kind: string, sessions: nat, detail: string)

  /** One failure detail: its sessions, its policy and its position there. */
  datatype Entry = Entry(sessions: nat, p: nat, f: nat)

  type Lists = seq<seq<Failure>>   // the details of each policy

  // What is kept: the entries that fewer than the limit go before --------------------------------------------

  predicate Earlier(a: Entry, b: Entry) { a.p < b.p || (a.p == b.p && a.f < b.f) }

  /** More sessions go first, among equals the earlier position. */
  predicate Before(a: Entry, b: Entry) {
    a.sessions > b.sessions || (a.sessions == b.sessions && Earlier(a, b))
  }

  function Row(list: seq<Failure>, p: nat): (row: seq<Entry>)
    ensures |row| == |list|
  {
    seq(|list|, f requires 0 <= f < |list| => Entry(list[f].sessions, p, f))
  }

  function Entries(lists: Lists): seq<Entry> {
    if lists == [] then [] else Entries(lists[..|lists| - 1]) + Row(lists[|lists| - 1], |lists| - 1)
  }

  ghost function Ahead(entries: seq<Entry>, e: Entry): set<Entry> {
    set x | x in entries && Before(x, e)
  }

  ghost predicate Kept(entries: seq<Entry>, limit: nat, e: Entry) {
    |Ahead(entries, e)| < limit
  }

  /** The details of one policy that are wanted, in their order. */
  function Chosen(list: seq<Failure>, p: nat, keep: set<(nat, nat)>): seq<Failure> {
    if list == [] then []
    else
      var n := |list| - 1;
      var before := Chosen(list[..n], p, keep);
      if (p, n) in keep then before + [list[n]] else before
  }

  function ChosenAll(lists: Lists, keep: set<(nat, nat)>): (kept: Lists)
    ensures |kept| == |lists|
  {
    seq(|lists|, p requires 0 <= p < |lists| => Chosen(lists[p], p, keep))
  }

  ghost function Wanted(lists: Lists, limit: nat): set<(nat, nat)> {
    set e | e in Entries(lists) && Kept(Entries(lists), limit, e) :: (e.p, e.f)
  }

  ghost function Limited(lists: Lists, limit: nat): (kept: Lists)
    ensures |kept| == |lists|
  {
    ChosenAll(lists, Wanted(lists, limit))
  }

  function Size(lists: Lists): nat {
    if lists == [] then 0 else Size(lists[..|lists| - 1]) + |lists[|lists| - 1]|
  }

  // Entries ------------------------------------------------------------------------------------------------

  lemma {:induction false} EntriesAre(lists: Lists, e: Entry)
    ensures e in Entries(lists) <==> e.p < |lists| && e.f < |lists[e.p]| && e.sessions == lists[e.p][e.f].sessions
  {
    if lists != [] {
      var n := |lists| - 1;
      EntriesAre(lists[..n], e);
      var row := Row(lists[n], n);
      if e.p == n && e.f < |lists[n]| && e.sessions == lists[n][e.f].sessions {
        assert row[e.f] == e;
      }
    }
  }

  predicate InOrder(entries: seq<Entry>) {
    forall i, j :: 0 <= i < j < |entries| ==> Earlier(entries[i], entries[j])
  }

  predicate Ranked(entries: seq<Entry>) {
    forall i, j :: 0 <= i < j < |entries| ==> Before(entries[i], entries[j])
  }

  lemma {:induction false} EntriesInOrder(lists: Lists)
    ensures InOrder(Entries(lists)) && |Entries(lists)| == Size(lists)
  {
    if lists != [] {
      var n := |lists| - 1;
      EntriesInOrder(lists[..n]);
      var before, all := Entries(lists[..n]), Entries(lists);
      forall i, j | 0 <= i < j < |all| ensures Earlier(all[i], all[j]) {
        if i < |before| {
          EntriesAre(lists[..n], before[i]);
        }
      }
    }
  }

  // Sorting -------------------------------------------------------------------------------------------------

  /** A later entry goes behind all with at least as many sessions. */
  function Insert(sorted: seq<Entry>, e: Entry): (all: seq<Entry>)
    ensures |all| == |sorted| + 1
  {
    var n := |sorted| - 1;
    if sorted == [] || sorted[n].sessions >= e.sessions then sorted + [e] else Insert(sorted[..n], e) + [sorted[n]]
  }

  /** The stable sort by falling number of sessions. */
  function Sorted(entries: seq<Entry>): (sorted: seq<Entry>)
    ensures |sorted| == |entries|
  {
    if entries == [] then [] else Insert(Sorted(entries[..|entries| - 1]), entries[|entries| - 1])
  }

  lemma {:induction false} InsertHas(sorted: seq<Entry>, e: Entry, x: Entry)
    ensures x in Insert(sorted, e) <==> x in sorted || x == e
  {
    var n := |sorted| - 1;
    if !(sorted == [] || sorted[n].sessions >= e.sessions) {
      InsertHas(sorted[..n], e, x);
      assert sorted == sorted[..n] + [sorted[n]];
    }
  }

  lemma {:induction false} InsertRanked(sorted: seq<Entry>, e: Entry)
    requires Ranked(sorted) && forall x :: x in sorted ==> Earlier(x, e)
    ensures Ranked(Insert(sorted, e))
  {
    var n := |sorted| - 1;
    if !(sorted == [] || sorted[n].sessions >= e.sessions) {
      InsertRanked(sorted[..n], e);
      var front := Insert(sorted[..n], e);
      forall i | 0 <= i < |front| ensures Before(front[i], sorted[n]) {
        InsertHas(sorted[..n], e, front[i]);
        if front[i] != e {
          var k :| 0 <= k < n && sorted[..n][k] == front[i];
          assert Before(sorted[k], sorted[n]);
        }
      }
    } else {
      forall i | 0 <= i < |sorted| ensures Before(sorted[i], e) {
        assert sorted[i] in sorted;
        assert i < n ==> Before(sorted[i], sorted[n]);
      }
    }
  }

  lemma {:induction false} SortedHas(entries: seq<Entry>, x: Entry)
    ensures x in Sorted(entries) <==> x in entries
  {
    if entries != [] {
      var n := |entries| - 1;
      SortedHas(entries[..n], x);
      InsertHas(Sorted(entries[..n]), entries[n], x);
      assert entries == entries[..n] + [entries[n]];
    }
  }

  lemma {:induction false} SortedRanked(entries: seq<Entry>)
    requires InOrder(entries)
    ensures Ranked(Sorted(entries))
  {
    if entries != [] {
      var n := |entries| - 1;
      SortedRanked(entries[..n]);
      forall x | x in Sorted(entries[..n]) ensures Earlier(x, entries[n]) {
        SortedHas(entries[..n], x);
        var k :| 0 <= k < n && entries[..n][k] == x;
        assert Earlier(entries[k], entries[n]);
      }
      InsertRanked(Sorted(entries[..n]), entries[n]);
    }
  }

  // The first of the sorted entries are those few others go before -----------------------------------------------

  ghost function First(sorted: seq<Entry>, k: nat): set<Entry>
    requires k <= |sorted|
  {
    set i | 0 <= i < k :: sorted[i]
  }

  lemma {:induction false} FirstSize(sorted: seq<Entry>, k: nat)
    requires Ranked(sorted) && k <= |sorted|
    ensures |First(sorted, k)| == k
  {
    if k > 0 {
      FirstSize(sorted, k - 1);
      assert First(sorted, k) == First(sorted, k - 1) + {sorted[k - 1]};
      assert sorted[k - 1] !in First(sorted, k - 1) by {
        forall i | 0 <= i < k - 1 ensures sorted[i] != sorted[k - 1] {
          assert Before(sorted[i], sorted[k - 1]);
        }
      }
    } else {
      assert First(sorted, 0) == {};
    }
  }

  lemma NotBehind(sorted: seq<Entry>, i: nat, k: nat)
    requires Ranked(sorted) && i < |sorted| && k < |sorted|
    ensures Before(sorted[i], sorted[k]) <==> i < k
    ensures sorted[i] == sorted[k] <==> i == k
  {
  }

  /** Exactly the entries sorted ahead of one go before it. */
  lemma AheadIsFirst(entries: seq<Entry>, sorted: seq<Entry>, k: nat)
    requires Ranked(sorted) && k < |sorted| && forall x :: x in sorted <==> x in entries
    ensures Ahead(entries, sorted[k]) == First(sorted, k)
  {
    forall x | x in Ahead(entries, sorted[k]) ensures x in First(sorted, k) {
      assert x in sorted;
      var i :| 0 <= i < |sorted| && sorted[i] == x;
      NotBehind(sorted, i, k);
    }
    forall x | x in First(sorted, k) ensures x in Ahead(entries, sorted[k]) {
      var i :| 0 <= i < k && sorted[i] == x;
      assert sorted[i] in sorted && Before(sorted[i], sorted[k]);
    }
  }

  /** Sorting and taking the first picks exactly the entries that fewer than the limit go before. */
  lemma FirstAreKept(entries: seq<Entry>, limit: nat, e: Entry)
    requires InOrder(entries) && e in entries
    ensures e in Sorted(entries)[..Least(limit, |entries|)] <==> Kept(entries, limit, e)
  {
    var sorted := Sorted(entries);
    SortedRanked(entries);
    forall x ensures x in sorted <==> x in entries { SortedHas(entries, x); }
    var k :| 0 <= k < |sorted| && sorted[k] == e;
    AheadIsFirst(entries, sorted, k);
    FirstSize(sorted, k);
    InFront(sorted, k, Least(limit, |entries|));
  }

  lemma InFront(sorted: seq<Entry>, k: nat, m: nat)
    requires Ranked(sorted) && k < |sorted| && m <= |sorted|
    ensures sorted[k] in sorted[..m] <==> k < m
  {
    if sorted[k] in sorted[..m] {
      var i :| 0 <= i < m && sorted[..m][i] == sorted[k];
      NotBehind(sorted, i, k);
    }
    if k < m {
      assert sorted[..m][k] == sorted[k];
    }
  }

  function Least(a: nat, b: nat): nat { if a <= b then a else b }

  // What the choice guarantees -------------------------------------------------------------------------------------

  /** Every entry kept goes before every entry left out: it has more sessions, or as many and an earlier position. */
  lemma KeptBefore(lists: Lists, limit: nat, a: Entry, b: Entry)
    requires a in Entries(lists) && b in Entries(lists)
    requires Kept(Entries(lists), limit, a) && !Kept(Entries(lists), limit, b)
    ensures Before(a, b)
  {
    var entries := Entries(lists);
    if !Before(a, b) {
      Compare(lists, a, b);
      assert Ahead(entries, b) <= Ahead(entries, a);
      SmallerSet(Ahead(entries, b), Ahead(entries, a));
    }
  }

  lemma Compare(lists: Lists, a: Entry, b: Entry)
    requires a in Entries(lists) && b in Entries(lists) && !Before(a, b)
    ensures a == b || Before(b, a)
  {
    EntriesAre(lists, a);
    EntriesAre(lists, b);
  }

  lemma SmallerSet<T>(a: set<T>, b: set<T>)
    requires a <= b
    ensures |a| <= |b|
  {
    assert b == a + (b - a);
  }

  ghost function KeptEntries(lists: Lists, limit: nat): set<Entry> {
    set e | e in Entries(lists) && Kept(Entries(lists), limit, e)
  }

  /** As many are kept as the limit allows. */
  lemma KeptMany(lists: Lists, limit: nat)
    ensures |KeptEntries(lists, limit)| == Least(limit, Size(lists))
  {
    var entries := Entries(lists);
    var sorted, m := Sorted(entries), Least(limit, |entries|);
    EntriesInOrder(lists);
    SortedRanked(entries);
    FirstSize(sorted, m);
    forall e ensures e in KeptEntries(lists, limit) <==> e in First(sorted, m) {
      SortedHas(entries, e);
      if e in entries {
        FirstAreKept(entries, limit, e);
      }
      InFirst(sorted, m, e);
    }
    assert KeptEntries(lists, limit) == First(sorted, m);
  }

  lemma InFirst(sorted: seq<Entry>, m: nat, e: Entry)
    requires m <= |sorted|
    ensures e in First(sorted, m) <==> e in sorted[..m]
    ensures e in First(sorted, m) ==> e in sorted
  {
    if e in sorted[..m] {
      var i :| 0 <= i < m && sorted[..m][i] == e;
      assert sorted[i] == e;
    }
    if e in First(sorted, m) {
      var i :| 0 <= i < m && sorted[i] == e;
      assert sorted[..m][i] == e;
    }
  }

  /** With room for all of them every entry is kept. */
  lemma AllKept(lists: Lists, limit: nat, e: Entry)
    requires Size(lists) <= limit && e in Entries(lists)
    ensures Kept(Entries(lists), limit, e)
  {
    KeptMany(lists, limit);
    EntriesInOrder(lists);
    var entries := Entries(lists);
    FirstAreKept(entries, limit, e);
    SortedHas(entries, e);
    assert Sorted(entries)[..|entries|] == Sorted(entries);
  }

  lemma WantedIs(lists: Lists, limit: nat, e: Entry)
    requires e in Entries(lists)
    ensures (e.p, e.f) in Wanted(lists, limit) <==> Kept(Entries(lists), limit, e)
  {
    if (e.p, e.f) in Wanted(lists, limit) {
      var x :| x in Entries(lists) && Kept(Entries(lists), limit, x) && x.p == e.p && x.f == e.f;
      EntriesAre(lists, x);
      EntriesAre(lists, e);
    }
  }

  /** The entries of the first policies that a choice of places covers. */
  ghost function Covered(lists: Lists, keep: set<(nat, nat)>): set<Entry> {
    set e | e in Entries(lists) && (e.p, e.f) in keep
  }

  ghost function CoveredRow(list: seq<Failure>, p: nat, keep: set<(nat, nat)>): set<Entry> {
    set e | e in Row(list, p) && (e.p, e.f) in keep
  }

  lemma {:induction false} ChosenSize(list: seq<Failure>, p: nat, keep: set<(nat, nat)>)
    ensures |Chosen(list, p, keep)| == |CoveredRow(list, p, keep)|
  {
    if list == [] {
      assert CoveredRow(list, p, keep) == {};
    } else {
      var n := |list| - 1;
      ChosenSize(list[..n], p, keep);
      var last := Entry(list[n].sessions, p, n);
      assert Row(list, p) == Row(list[..n], p) + [last];
      assert forall e :: e in Row(list[..n], p) ==> e.f < n;
      if (p, n) in keep {
        assert CoveredRow(list, p, keep) == CoveredRow(list[..n], p, keep) + {last};
      } else {
        assert CoveredRow(list, p, keep) == CoveredRow(list[..n], p, keep);
      }
    }
  }

  lemma {:induction false} CoveredSize(lists: Lists, keep: set<(nat, nat)>)
    ensures Size(ChosenAll(lists, keep)) == |Covered(lists, keep)|
  {
    if lists == [] {
      assert Covered(lists, keep) == {};
    } else {
      var n := |lists| - 1;
      CoveredSize(lists[..n], keep);
      ChosenSize(lists[n], n, keep);
      assert ChosenAll(lists, keep)[..n] == ChosenAll(lists[..n], keep);
      var a, b := Covered(lists[..n], keep), CoveredRow(lists[n], n, keep);
      assert Covered(lists, keep) == a + b;
      forall e | e in a ensures e !in b {
        EntriesAre(lists[..n], e);
      }
    }
  }

  /** What is kept and what is left out add up to what was reported, and at most the limit is kept. */
  lemma LimitedSize(lists: Lists, limit: nat)
    ensures Size(Limited(lists, limit)) == Least(limit, Size(lists))
  {
    var keep := Wanted(lists, limit);
    CoveredSize(lists, keep);
    KeptMany(lists, limit);
    forall e | e in Entries(lists) ensures e in Covered(lists, keep) <==> e in KeptEntries(lists, limit) {
      WantedIs(lists, limit, e);
    }
    assert Covered(lists, keep) == KeptEntries(lists, limit);
  }

  lemma {:induction false} ChosenWhole(list: seq<Failure>, p: nat, keep: set<(nat, nat)>)
    requires forall f: nat :: f < |list| ==> (p, f) in keep
    ensures Chosen(list, p, keep) == list
  {
    if list != [] {
      ChosenWhole(list[..|list| - 1], p, keep);
    }
  }

  /** Within the limit nothing changes. */
  lemma LimitedWhole(lists: Lists, limit: nat)
    requires Size(lists) <= limit
    ensures Limited(lists, limit) == lists
  {
    forall p | 0 <= p < |lists| ensures Limited(lists, limit)[p] == lists[p] {
      forall f: nat | f < |lists[p]| ensures (p, f) in Wanted(lists, limit) {
        var e := Entry(lists[p][f].sessions, p, f);
        EntriesAre(lists, e);
        AllKept(lists, limit, e);
        WantedIs(lists, limit, e);
      }
      ChosenWhole(lists[p], p, Wanted(lists, limit));
    }
  }

  // No other choice covers more sessions ---------------------------------------------------------------------------

  ghost function Sessions(entries: set<Entry>): nat {
    if entries == {} then 0
    else
      var e :| e in entries;
      e.sessions + Sessions(entries - {e})
  }

  lemma {:induction false} SessionsOf(entries: set<Entry>, e: Entry)
    requires e in entries
    ensures Sessions(entries) == e.sessions + Sessions(entries - {e})
    decreases entries
  {
    var x :| x in entries && Sessions(entries) == x.sessions + Sessions(entries - {x});
    if x != e {
      SessionsOf(entries - {x}, e);
      SessionsOf(entries - {e}, x);
      assert entries - {x} - {e} == entries - {e} - {x};
    }
  }

  lemma {:induction false} SessionsPlus(a: set<Entry>, b: set<Entry>)
    requires a !! b
    ensures Sessions(a + b) == Sessions(a) + Sessions(b)
    decreases a
  {
    if a == {} {
      assert a + b == b;
    } else {
      var e :| e in a;
      SessionsOf(a, e);
      SessionsOf(a + b, e);
      SessionsPlus(a - {e}, b);
      assert a + b - {e} == (a - {e}) + b;
    }
  }

  lemma {:induction false} Outweighs(a: set<Entry>, b: set<Entry>)
    requires |b| <= |a| && forall x, y :: x in a && y in b ==> x.sessions >= y.sessions
    ensures Sessions(b) <= Sessions(a)
    decreases b
  {
    if b != {} {
      var y :| y in b;
      var x :| x in a;
      SessionsOf(a, x);
      SessionsOf(b, y);
      Outweighs(a - {x}, b - {y});
    }
  }

  /** Any other choice of at most as many entries covers at most as many failed sessions. */
  lemma MostSessions(lists: Lists, limit: nat, other: set<Entry>)
    requires |other| <= limit && forall e :: e in other ==> e in Entries(lists)
    ensures Sessions(other) <= Sessions(KeptEntries(lists, limit))
  {
    var kept := KeptEntries(lists, limit);
    var a, b, both := kept - other, other - kept, kept * other;
    assert kept == a + both && other == b + both;
    SessionsPlus(a, both);
    SessionsPlus(b, both);
    KeptMany(lists, limit);
    if Size(lists) <= limit {
      forall e | e in other ensures e in kept {
        AllKept(lists, limit, e);
      }
      assert b == {};
    }
    assert |a| == |kept| - |both| && |b| == |other| - |both|;
    forall x, y | x in a && y in b ensures x.sessions >= y.sessions {
      KeptBefore(lists, limit, x, y);
    }
    Outweighs(a, b);
  }

  // The policies of a report ------------------------------------------------------------------------------------------

  class Policy {
    var kind: string
    var successful: nat    // the summary, as reported
    var failed: nat
    var failures: seq<Failure>

    constructor (kind: string, successful: nat, failed: nat, failures: seq<Failure>)
      ensures this.kind == kind && this.successful == successful && this.failed == failed && this.failures == failures
    {
      this.kind, this.successful, this.failed, this.failures := kind, successful, failed, failures;
    }

    /** Everything but the details. */
    function Summary(): (string, nat, nat)
      reads this
    {
      (kind, successful, failed)
    }

    method KeepOnly(p: nat, keep: set<(nat, nat)>)
      modifies this
      ensures Summary() == old(Summary())
      ensures failures == Chosen(old(failures), p, keep)
    {
      var left: seq<Failure> := [];
      for f := 0 to |failures|
        invariant failures == old(failures) && Summary() == old(Summary())
        invariant left == Chosen(failures[..f], p, keep)
      {
        assert failures[..f + 1][..f] == failures[..f];
        if (p, f) in keep {
          left := left + [failures[f]];
        }
      }
      assert failures[..|failures|] == failures;
      failures := left;
    }
  }

  predicate Different(policies: seq<Policy>) {
    forall i, j :: 0 <= i < j < |policies| ==> policies[i] != policies[j]
  }

  function Details(policies: seq<Policy>): (lists: Lists)
    reads policies
    ensures |lists| == |policies|
  {
    seq(|policies|, i requires 0 <= i < |policies| reads policies => policies[i].failures)
  }

  /** Afterwards each policy holds the limited form of its list; what was cut and what is left add up. */
  method LimitFailures(policies: seq<Policy>, limit: nat) returns (omitted: nat)
    requires Different(policies)
    modifies set policy | policy in policies
    ensures Details(policies) == Limited(old(Details(policies)), limit)
    ensures Size(Details(policies)) + omitted == old(Size(Details(policies)))
    ensures Size(Details(policies)) <= limit
    ensures forall policy :: policy in policies ==> policy.Summary() == old(policy.Summary())
  {
    ghost var lists := Details(policies);
    EntriesInOrder(lists);
    LimitedSize(lists, limit);
    var entries := Entries(Details(policies));
    if |entries| <= limit {
      LimitedWhole(lists, limit);
      return 0;
    }
    var keep := set e | e in Sorted(entries)[..limit] :: (e.p, e.f);
    KeepIsWanted(lists, limit, keep);
    KeepIn(policies, keep);
    omitted := |entries| - limit;
  }

  method KeepIn(policies: seq<Policy>, keep: set<(nat, nat)>)
    requires Different(policies)
    modifies set policy | policy in policies
    ensures Details(policies) == ChosenAll(old(Details(policies)), keep)
    ensures forall policy :: policy in policies ==> policy.Summary() == old(policy.Summary())
  {
    ghost var lists := Details(policies);
    for p := 0 to |policies|
      invariant forall q :: 0 <= q < |policies| ==>
        policies[q].failures == if q < p then Chosen(lists[q], q, keep) else lists[q]
      invariant forall q :: 0 <= q < |policies| ==> policies[q].Summary() == old(policies[q].Summary())
    {
      policies[p].KeepOnly(p, keep);
    }
  }

  lemma KeepIsWanted(lists: Lists, limit: nat, keep: set<(nat, nat)>)
    requires limit < |Entries(lists)| && keep == set e | e in Sorted(Entries(lists))[..limit] :: (e.p, e.f)
    ensures keep == Wanted(lists, limit)
  {
    var entries := Entries(lists);
    var sorted := Sorted(entries);
    EntriesInOrder(lists);
    forall e | e in sorted[..limit] ensures e in entries && Kept(entries, limit, e) {
      assert e in sorted;
      SortedHas(entries, e);
      FirstAreKept(entries, limit, e);
    }
    forall e | e in entries && Kept(entries, limit, e) ensures e in sorted[..limit] {
      FirstAreKept(entries, limit, e);
    }
  }
}
