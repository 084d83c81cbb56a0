/** The books of the import: they balance after every job, whatever breaks, and known reports change nothing. */
module ImportBooks {
  import opened Wrappers
  import opened ImportService

  // Sources -------------------------------------------------------------------------------------------------

  lemma {:induction false} SumNone(records: seq<Record>, about: Record -> bool)
    requires forall k :: 0 <= k < |records| ==> !about(records[k])
    ensures Sum(records, about) == 0
  {
    if records != [] {
      SumNone(records[..|records| - 1], about);
    }
  }

  lemma {:induction false} PlaceFinds(sources: seq<Source>, organization: nat, address: string, i: nat)
    requires i < |sources| && sources[i].organization == organization && sources[i].address == address
    ensures Place(sources, organization, address) <= i
  {
    var n := |sources| - 1;
    if i < n {
      PlaceFinds(sources[..n], organization, address, i);
    }
  }

  predicate SameKey(a: Source, b: Source) {
    a.organization == b.organization && a.address == b.address
  }

  /** Sources keep their place and key; a new one comes last. */
  lemma UpsertKeys(sources: seq<Source>, organization: nat, line: Line)
    requires OneEach(sources)
    ensures var after := Upserted(sources, organization, line);
            && OneEach(after) && |sources| <= |after| <= |sources| + 1
            && (forall i :: 0 <= i < |sources| ==> SameKey(after[i], sources[i]))
            && Place(after, organization, line.address) < |after|
  {
    var after := Upserted(sources, organization, line);
    var p := Place(sources, organization, line.address);
    if p == |sources| {
      forall i | 0 <= i < |sources| ensures !SameKey(sources[i], after[p]) {
        if SameKey(sources[i], after[p]) {
          PlaceFinds(sources, organization, line.address, i);
        }
      }
      assert forall i :: 0 <= i < |sources| ==> after[i] == sources[i];
    }
    PlaceFinds(after, organization, line.address, p);
  }

  lemma StaysListed(record: Record, sources: seq<Source>, after: seq<Source>)
    requires Listed(record, sources) && |sources| <= |after|
    requires forall i :: 0 <= i < |sources| ==> SameKey(after[i], sources[i])
    ensures Listed(record, after)
  {
    var i := Place(sources, record.organization, record.address);
    assert SameKey(after[i], sources[i]);
    PlaceFinds(after, record.organization, record.address, i);
  }

  lemma {:induction false} TotalUpdated(sources: seq<Source>, i: nat, s: Source, organization: nat)
    requires i < |sources| && s.organization == sources[i].organization
    ensures SourceTotal(sources[i := s], organization)
         == SourceTotal(sources, organization)
            + if s.organization == organization then s.total - sources[i].total else 0
  {
    var n := |sources| - 1;
    if i < n {
      assert sources[i := s][..n] == sources[..n][i := s];
      TotalUpdated(sources[..n], i, s, organization);
    } else {
      assert sources[i := s][..n] == sources[..n];
    }
  }

  lemma TotalAfter(sources: seq<Source>, organization: nat, line: Line, o: nat)
    ensures SourceTotal(Upserted(sources, organization, line), o)
         == SourceTotal(sources, o) + if o == organization then line.count else 0
  {
    var p := Place(sources, organization, line.address);
    if p == |sources| {
      var s := Counted(Source(organization, line.address, 0, 0, 0), line.count, line.passed);
      assert (sources + [s])[..|sources|] == sources;
    } else {
      TotalUpdated(sources, p, Counted(sources[p], line.count, line.passed), o);
    }
  }

  lemma SourceKept(s: Source, records: seq<Record>, r: Record)
    requires SourceRight(s, records) && !(r.organization == s.organization && r.address == s.address)
    ensures SourceRight(s, records + [r])
  {
    SumNext(records, r, At(s.organization, s.address, true));
    SumNext(records, r, At(s.organization, s.address, false));
  }

  lemma SourceCounts(s: Source, records: seq<Record>, r: Record)
    requires SourceRight(s, records) && r.organization == s.organization && r.address == s.address
    ensures SourceRight(Counted(s, r.count, r.passed), records + [r])
  {
    SumNext(records, r, At(s.organization, s.address, true));
    SumNext(records, r, At(s.organization, s.address, false));
  }

  /** An address without a source has no records yet. */
  lemma NewSource(sources: seq<Source>, records: seq<Record>, organization: nat, address: string)
    requires forall k :: 0 <= k < |records| ==> Listed(records[k], sources)
    requires Place(sources, organization, address) == |sources|
    ensures SourceRight(Source(organization, address, 0, 0, 0), records)
  {
    forall k | 0 <= k < |records|
      ensures !(records[k].organization == organization && records[k].address == address)
    {
      assert Listed(records[k], sources);
    }
    SumNone(records, At(organization, address, true));
    SumNone(records, At(organization, address, false));
  }

  ghost predicate SourcesRight(sources: seq<Source>, records: seq<Record>) {
    forall i :: 0 <= i < |sources| ==> SourceRight(sources[i], records)
  }

  lemma UpsertRight(sources: seq<Source>, records: seq<Record>, organization: nat, line: Line, r: Record)
    requires OneEach(sources) && SourcesRight(sources, records)
    requires forall k :: 0 <= k < |records| ==> Listed(records[k], sources)
    requires r.organization == organization && r.address == line.address
    requires r.count == line.count && r.passed == line.passed
    ensures SourcesRight(Upserted(sources, organization, line), records + [r])
  {
    var after := Upserted(sources, organization, line);
    var p := Place(sources, organization, line.address);
    forall i | 0 <= i < |after| ensures SourceRight(after[i], records + [r]) {
      if i == p {
        if p == |sources| {
          NewSource(sources, records, organization, line.address);
          SourceCounts(Source(organization, line.address, 0, 0, 0), records, r);
        } else {
          SourceCounts(sources[p], records, r);
        }
      } else {
        assert SourceRight(sources[i], records);
        if sources[i].organization == organization && sources[i].address == line.address {
          PlaceIs(sources, organization, line.address, i);
        }
        SourceKept(sources[i], records, r);
      }
    }
  }

  // Reports --------------------------------------------------------------------------------------------------

  ghost predicate ReportsRight(reports: seq<Report>, records: seq<Record>) {
    forall i: nat :: i < |reports| ==> ReportRight(reports, records, i)
  }

  lemma ReportsKept(reports: seq<Report>, records: seq<Record>, r: Record)
    requires ReportsRight(reports, records)
    requires r.report < |reports| ==> !reports[r.report].complete
    ensures ReportsRight(reports, records + [r])
  {
    forall i: nat | i < |reports| ensures ReportRight(reports, records + [r], i) {
      assert ReportRight(reports, records, i);
      SumNext(records, r, In(i, true));
      SumNext(records, r, In(i, false));
    }
  }

  /** Storing one line of a report that is still open keeps the books balanced. */
  lemma LineKeeps(w: World, organization: nat, report: nat, line: Line)
    requires Balanced(w) && report < |w.reports|
    requires w.reports[report].organization == organization && !w.reports[report].complete
    ensures Balanced(AfterLine(w, organization, report, line))
  {
    var r := Record(organization, report, line.address, line.count, line.passed);
    var next := AfterLine(w, organization, report, line);
    UpsertKeys(w.sources, organization, line);
    UpsertRight(w.sources, w.records, organization, line, r);
    ReportsKept(w.reports, w.records, r);
    forall k | 0 <= k < |next.records|
      ensures Filed(next.records[k], next.reports) && Listed(next.records[k], next.sources)
    {
      if k < |w.records| {
        assert Listed(w.records[k], w.sources) && Filed(w.records[k], w.reports);
        StaysListed(w.records[k], w.sources, next.sources);
      }
    }
    forall o ensures SourceTotal(next.sources, o) == Sum(next.records, Of(o)) {
      TotalAfter(w.sources, organization, line, o);
      SumNext(w.records, r, Of(o));
    }
  }

  /** The records of a report grew by these lines. */
  predicate Gained(w: World, next: World, report: nat, lines: seq<Line>, passed: bool) {
    Sum(next.records, In(report, passed)) == Sum(w.records, In(report, passed)) + Volume(lines, passed)
  }

  lemma {:induction false} LinesKeep(w: World, organization: nat, report: nat, lines: seq<Line>)
    requires Balanced(w) && report < |w.reports|
    requires w.reports[report].organization == organization && !w.reports[report].complete
    ensures Balanced(AfterLines(w, organization, report, lines))
    ensures forall passed :: Gained(w, AfterLines(w, organization, report, lines), report, lines, passed)
  {
    if lines != [] {
      var n := |lines| - 1;
      LinesKeep(w, organization, report, lines[..n]);
      var before := AfterLines(w, organization, report, lines[..n]);
      LineKeeps(before, organization, report, lines[n]);
      forall passed ensures Gained(w, AfterLines(w, organization, report, lines), report, lines, passed) {
        var l := lines[n];
        assert Gained(w, before, report, lines[..n], passed);
        SumNext(before.records, Record(organization, report, l.address, l.count, l.passed), In(report, passed));
      }
    }
  }

  lemma OpenKeeps(w: World, organization: nat, id: string)
    requires Balanced(w)
    ensures Balanced(Opened(w, organization, id))
    ensures forall passed :: Sum(w.records, In(|w.reports|, passed)) == 0
  {
    var next := Opened(w, organization, id);
    forall i: nat | i < |next.reports| ensures ReportRight(next.reports, next.records, i) {
      if i < |w.reports| {
        assert ReportRight(w.reports, w.records, i);
      }
    }
    forall k | 0 <= k < |next.records|
      ensures Filed(next.records[k], next.reports) && Listed(next.records[k], next.sources)
    {
      assert Filed(w.records[k], w.reports);
    }
    forall passed ensures Sum(w.records, In(|w.reports|, passed)) == 0 {
      forall k | 0 <= k < |w.records| ensures !In(|w.reports|, passed)(w.records[k]) {
        assert Filed(w.records[k], w.reports);
      }
      SumNone(w.records, In(|w.reports|, passed));
    }
  }

  lemma CloseKeeps(w: World, r: nat, lines: seq<Line>)
    requires Balanced(w) && r < |w.reports|
    requires Sum(w.records, In(r, true)) == Volume(lines, true) && Sum(w.records, In(r, false)) == Volume(lines, false)
    ensures Balanced(Closed(w, r, lines))
  {
    var next := Closed(w, r, lines);
    forall i: nat | i < |next.reports| ensures ReportRight(next.reports, next.records, i) {
      assert ReportRight(w.reports, w.records, i);
    }
    forall k | 0 <= k < |next.records|
      ensures Filed(next.records[k], next.reports) && Listed(next.records[k], next.sources)
    {
      assert Filed(w.records[k], w.reports);
    }
  }

  lemma ReportKeeps(w: World, organization: nat, p: Blob)
    requires Balanced(w) && p.Parsed?
    ensures Balanced(AfterReport(w, organization, p))
  {
    var start, r := Opened(w, organization, p.id), |w.reports|;
    OpenKeeps(w, organization, p.id);
    if Breaks(p) {
      LinesKeep(start, organization, r, p.lines[..p.breaks.value]);
    } else {
      LinesKeep(start, organization, r, p.lines);
      var filled := AfterLines(start, organization, r, p.lines);
      assert Gained(start, filled, r, p.lines, true) && Gained(start, filled, r, p.lines, false);
      CloseKeeps(AfterLines(start, organization, r, p.lines), r, p.lines);
    }
  }

  lemma {:induction false} BlobsKeep(w: World, organization: nat, blobs: seq<Blob>)
    requires Balanced(w)
    ensures Balanced(AfterBlobs(w, organization, blobs).0)
  {
    if blobs != [] {
      var n := |blobs| - 1;
      BlobsKeep(w, organization, blobs[..n]);
      var (before, tally) := AfterBlobs(w, organization, blobs[..n]);
      if !tally.broken && blobs[n].Parsed? {
        ReportKeeps(before, organization, blobs[n]);
      }
    }
  }

  // Runs -----------------------------------------------------------------------------------------------------

  /** A job for an organisation, or the retention removing reports. */
  datatype Step = Job(organization: nat, blobs: seq<Blob>) | Purge(gone: set<nat>)

  function Purged(reports: seq<Report>, gone: set<nat>): (after: seq<Report>)
    ensures |after| == |reports|
  {
    seq(|reports|, i requires 0 <= i < |reports| => if i in gone then reports[i].(present := false) else reports[i])
  }

  function After(w: World, step: Step): World {
    match step
    case Job(organization, blobs) => AfterBlobs(w, organization, blobs).0
    case Purge(gone) => w.(reports := Purged(w.reports, gone))
  }

  lemma PurgeKeeps(w: World, gone: set<nat>)
    requires Balanced(w)
    ensures Balanced(After(w, Purge(gone)))
  {
    var next := After(w, Purge(gone));
    forall i: nat | i < |next.reports| ensures ReportRight(next.reports, next.records, i) {
      assert ReportRight(w.reports, w.records, i);
    }
    forall k | 0 <= k < |next.records|
      ensures Filed(next.records[k], next.reports) && Listed(next.records[k], next.sources)
    {
      assert Filed(w.records[k], w.reports);
    }
  }

  ghost predicate IsRun(worlds: seq<World>, steps: seq<Step>) {
    && |worlds| == |steps| + 1 && worlds[0] == World([], [], [])
    && forall k: nat :: k < |steps| ==> worlds[k + 1] == After(worlds[k], steps[k])
  }

  /** After any sequence of jobs and clean-ups every source counts exactly the records ever stored for it, and every
      complete report exactly its own. */
  lemma {:induction false} RunBalanced(worlds: seq<World>, steps: seq<Step>, k: nat)
    requires IsRun(worlds, steps) && k <= |steps|
    ensures Balanced(worlds[k])
  {
    if k > 0 {
      RunBalanced(worlds, steps, k - 1);
      assert worlds[k - 1 + 1] == After(worlds[k - 1], steps[k - 1]);
      match steps[k - 1]
      case Job(organization, blobs) => BlobsKeep(worlds[k - 1], organization, blobs);
      case Purge(gone) => PurgeKeeps(worlds[k - 1], gone);
    }
  }

  // An organisation as a whole ---------------------------------------------------------------------------------

  /** The totals of the reports of an organisation. */
  function ReportTotal(reports: seq<Report>, organization: nat, n: nat): int
    requires n <= |reports|
  {
    if n == 0 then 0
    else ReportTotal(reports, organization, n - 1)
         + if reports[n - 1].organization == organization then reports[n - 1].total else 0
  }

  function Whole(records: seq<Record>, report: nat): int {
    Sum(records, In(report, true)) + Sum(records, In(report, false))
  }

  /** What was stored of the reports that broke. */
  function Lost(reports: seq<Report>, records: seq<Record>, organization: nat, n: nat): int
    requires n <= |reports|
  {
    if n == 0 then 0
    else Lost(reports, records, organization, n - 1)
         + if reports[n - 1].organization == organization && !reports[n - 1].complete then Whole(records, n - 1) else 0
  }

  function ByReport(reports: seq<Report>, records: seq<Record>, organization: nat, n: nat): int
    requires n <= |reports|
  {
    if n == 0 then 0
    else ByReport(reports, records, organization, n - 1)
         + if reports[n - 1].organization == organization then Whole(records, n - 1) else 0
  }

  lemma {:induction false} ByReportNext(reports: seq<Report>, records: seq<Record>, r: Record, organization: nat,
                                        n: nat)
    requires n <= |reports| && Filed(r, reports)
    ensures ByReport(reports, records + [r], organization, n)
         == ByReport(reports, records, organization, n)
            + if r.report < n && r.organization == organization then r.count else 0
  {
    if n > 0 {
      ByReportNext(reports, records, r, organization, n - 1);
      SumNext(records, r, In(n - 1, true));
      SumNext(records, r, In(n - 1, false));
    }
  }

  lemma {:induction false} ByReportNothing(reports: seq<Report>, organization: nat, n: nat)
    requires n <= |reports|
    ensures ByReport(reports, [], organization, n) == 0
  {
    if n > 0 {
      ByReportNothing(reports, organization, n - 1);
    }
  }

  /** The records of an organisation, counted report by report. */
  lemma {:induction false} CountedByReport(reports: seq<Report>, records: seq<Record>, organization: nat)
    requires forall k :: 0 <= k < |records| ==> Filed(records[k], reports)
    ensures ByReport(reports, records, organization, |reports|) == Sum(records, Of(organization))
  {
    if records == [] {
      ByReportNothing(reports, organization, |reports|);
    } else {
      var n := |records| - 1;
      CountedByReport(reports, records[..n], organization);
      assert records == records[..n] + [records[n]];
      ByReportNext(reports, records[..n], records[n], organization, |reports|);
    }
  }

  lemma {:induction false} SplitByReport(reports: seq<Report>, records: seq<Record>, organization: nat, n: nat)
    requires n <= |reports| && ReportsRight(reports, records)
    ensures ByReport(reports, records, organization, n)
         == ReportTotal(reports, organization, n) + Lost(reports, records, organization, n)
  {
    if n > 0 {
      SplitByReport(reports, records, organization, n - 1);
      assert ReportRight(reports, records, n - 1);
    }
  }

  /** The source totals of an organisation add up to its report totals and what is left of reports that broke. */
  lemma OrganizationBalance(w: World, organization: nat)
    requires Balanced(w)
    ensures SourceTotal(w.sources, organization)
         == ReportTotal(w.reports, organization, |w.reports|) + Lost(w.reports, w.records, organization, |w.reports|)
    ensures (forall i :: 0 <= i < |w.reports| ==> w.reports[i].complete) ==>
              SourceTotal(w.sources, organization) == ReportTotal(w.reports, organization, |w.reports|)
  {
    CountedByReport(w.reports, w.records, organization);
    SplitByReport(w.reports, w.records, organization, |w.reports|);
    if forall i :: 0 <= i < |w.reports| ==> w.reports[i].complete {
      NothingLost(w.reports, w.records, organization, |w.reports|);
    }
  }

  lemma {:induction false} NothingLost(reports: seq<Report>, records: seq<Record>, organization: nat, n: nat)
    requires n <= |reports| && forall i :: 0 <= i < |reports| ==> reports[i].complete
    ensures Lost(reports, records, organization, n) == 0
  {
    if n > 0 {
      NothingLost(reports, records, organization, n - 1);
    }
  }

  // Known reports ------------------------------------------------------------------------------------------------

  /** The reports stored so far stay as they are. */
  lemma ReportsPrefix(w: World, organization: nat, blob: Blob)
    ensures w.reports <= AfterBlob(w, organization, blob).reports
  {
  }

  lemma StaysKnown(reports: seq<Report>, more: seq<Report>, organization: nat, id: string)
    requires reports <= more && Known(reports, organization, id)
    ensures Known(more, organization, id)
  {
    var i :| 0 <= i < |reports| && reports[i].present && reports[i].organization == organization && reports[i].id == id;
    assert more[i] == reports[i];
  }

  /** A file that would store nothing now. */
  predicate Settled(w: World, organization: nat, blob: Blob) {
    blob.Parsed? && blob.id != "" ==> Known(w.reports, organization, blob.id)
  }

  lemma BlobSettles(w: World, organization: nat, blob: Blob)
    ensures Settled(AfterBlob(w, organization, blob), organization, blob)
  {
    if blob.Parsed? && blob.id != "" && !Known(w.reports, organization, blob.id) {
      var next := AfterBlob(w, organization, blob);
      assert next.reports[|w.reports|].id == blob.id;
    }
  }

  lemma {:induction false} AllSettle(w: World, organization: nat, blobs: seq<Blob>, k: nat)
    requires k < |blobs| && !AfterBlobs(w, organization, blobs).1.broken
    ensures Settled(AfterBlobs(w, organization, blobs).0, organization, blobs[k])
  {
    var n := |blobs| - 1;
    var before := AfterBlobs(w, organization, blobs[..n]).0;
    if k < n {
      AllSettle(w, organization, blobs[..n], k);
      ReportsPrefix(before, organization, blobs[n]);
      if blobs[k].Parsed? && blobs[k].id != "" {
        StaysKnown(before.reports, AfterBlob(before, organization, blobs[n]).reports, organization, blobs[k].id);
      }
    } else {
      BlobSettles(before, organization, blobs[n]);
    }
  }

  lemma {:induction false} SettledIdle(w: World, organization: nat, blobs: seq<Blob>)
    requires forall k :: 0 <= k < |blobs| ==> Settled(w, organization, blobs[k])
    ensures AfterBlobs(w, organization, blobs).0 == w
    ensures var tally := AfterBlobs(w, organization, blobs).1;
            tally.imported == 0 && !tally.broken && tally.skipped + tally.failed == |blobs|
  {
    if blobs != [] {
      SettledIdle(w, organization, blobs[..|blobs| - 1]);
    }
  }

  /** Importing the files of a job a second time stores nothing and changes no total. */
  lemma AgainIdle(w: World, organization: nat, blobs: seq<Blob>)
    requires !AfterBlobs(w, organization, blobs).1.broken
    ensures var once := AfterBlobs(w, organization, blobs).0;
            && AfterBlobs(once, organization, blobs).0 == once
            && AfterBlobs(once, organization, blobs).1.imported == 0
  {
    var once := AfterBlobs(w, organization, blobs).0;
    forall k | 0 <= k < |blobs| ensures Settled(once, organization, blobs[k]) {
      AllSettle(w, organization, blobs, k);
    }
    SettledIdle(once, organization, blobs);
  }

  /** Unless it breaks, a job accounts for every file, and the reports imported are those added, each complete. */
  lemma {:induction false} TallyAddsUp(w: World, organization: nat, blobs: seq<Blob>)
    ensures var (next, tally) := AfterBlobs(w, organization, blobs);
            && (!tally.broken ==> tally.imported + tally.skipped + tally.failed == |blobs|)
            && |next.reports| == |w.reports| + tally.imported + (if tally.broken then 1 else 0)
            && w.reports <= next.reports
  {
    if blobs != [] {
      TallyAddsUp(w, organization, blobs[..|blobs| - 1]);
    }
  }

  /** An organisation never has two reports with one number, as long as none is removed. */
  predicate NoTwins(reports: seq<Report>) {
    forall i, j :: 0 <= i < j < |reports| && reports[i].present && reports[j].present ==>
      !(reports[i].organization == reports[j].organization && reports[i].id == reports[j].id)
  }

  lemma {:induction false} JobKeepsNoTwins(w: World, organization: nat, blobs: seq<Blob>)
    requires NoTwins(w.reports)
    ensures NoTwins(AfterBlobs(w, organization, blobs).0.reports)
  {
    if blobs != [] {
      var n := |blobs| - 1;
      JobKeepsNoTwins(w, organization, blobs[..n]);
      var (before, tally) := AfterBlobs(w, organization, blobs[..n]);
      if !tally.broken {
        BlobKeepsNoTwins(before, organization, blobs[n]);
      }
    }
  }

  lemma BlobKeepsNoTwins(w: World, organization: nat, blob: Blob)
    requires NoTwins(w.reports)
    ensures NoTwins(AfterBlob(w, organization, blob).reports)
  {
    var next := AfterBlob(w, organization, blob).reports;
    if next != w.reports {
      assert |next| == |w.reports| + 1 && next[..|w.reports|] == w.reports;
      assert !Known(w.reports, organization, blob.id);
    }
  }

  lemma {:induction false} RunNoTwins(worlds: seq<World>, steps: seq<Step>, k: nat)
    requires IsRun(worlds, steps) && k <= |steps|
    ensures NoTwins(worlds[k].reports)
  {
    if k > 0 {
      RunNoTwins(worlds, steps, k - 1);
      assert worlds[k - 1 + 1] == After(worlds[k - 1], steps[k - 1]);
      match steps[k - 1]
      case Job(organization, blobs) => JobKeepsNoTwins(worlds[k - 1], organization, blobs);
      case Purge(gone) =>
    }
  }

  /** The numbers a job brings that were not known before it. */
  function NewIds(reports: seq<Report>, organization: nat, blobs: seq<Blob>): set<string> {
    set b | b in blobs && b.Parsed? && b.id != "" && !Known(reports, organization, b.id) :: b.id
  }

  lemma KnownNext(w: World, organization: nat, blob: Blob, id: string)
    ensures Known(AfterBlob(w, organization, blob).reports, organization, id)
        <==> Known(w.reports, organization, id) || (blob.Parsed? && blob.id == id && id != "")
  {
    var next := AfterBlob(w, organization, blob).reports;
    if Known(w.reports, organization, id) {
      StaysKnown(w.reports, next, organization, id);
    }
    if next != w.reports {
      var last := next[|w.reports|];
      assert last.present && last.organization == organization && last.id == blob.id;
      assert forall i :: 0 <= i < |w.reports| ==> next[i] == w.reports[i];
    }
  }

  /** A job that does not break imports each new number exactly once, however often it occurs. */
  lemma {:induction false} ImportedExactly(w: World, organization: nat, blobs: seq<Blob>, id: string)
    requires !AfterBlobs(w, organization, blobs).1.broken
    ensures AfterBlobs(w, organization, blobs).1.imported == |NewIds(w.reports, organization, blobs)|
    ensures Known(AfterBlobs(w, organization, blobs).0.reports, organization, id)
        <==> Known(w.reports, organization, id) || id in NewIds(w.reports, organization, blobs)
  {
    if blobs != [] {
      var n := |blobs| - 1;
      var last, before := blobs[n], AfterBlobs(w, organization, blobs[..n]).0;
      ImportedExactly(w, organization, blobs[..n], id);
      KnownNext(before, organization, last, id);
      var ids, more := NewIds(w.reports, organization, blobs[..n]), NewIds(w.reports, organization, blobs);
      assert blobs == blobs[..n] + [last];
      if last.Parsed? && last.id != "" {
        ImportedExactly(w, organization, blobs[..n], last.id);
        if Known(w.reports, organization, last.id) {
          assert more == ids;
        } else {
          assert more == ids + {last.id};
        }
      } else {
        assert more == ids;
      }
    }
  }

  // How a job ends ------------------------------------------------------------------------------------------

  /** Not readable as a report, or without a number. */
  predicate IsBad(blob: Blob) { blob.Unreadable? || blob.id == "" }

  predicate AnyBad(blobs: seq<Blob>) { exists k :: 0 <= k < |blobs| && IsBad(blobs[k]) }

  lemma AnyBadNext(front: seq<Blob>, last: Blob)
    ensures AnyBad(front + [last]) <==> AnyBad(front) || IsBad(last)
  {
    var all := front + [last];
    assert all[|front|] == last;
    if AnyBad(front) {
      var k :| 0 <= k < |front| && IsBad(front[k]);
      assert all[k] == front[k];
    }
  }

  lemma TallyNext(w: World, organization: nat, blobs: seq<Blob>, front: seq<Blob>, last: Blob)
    requires blobs == front + [last]
    ensures var before, after := AfterBlobs(w, organization, front).1, AfterBlobs(w, organization, blobs).1;
            && (before.broken ==> after.broken)
            && (!before.broken ==> after.failed == before.failed + if IsBad(last) then 1 else 0)
  {
    assert blobs[..|blobs| - 1] == front && blobs[|blobs| - 1] == last;
  }

  lemma {:induction false} FailedExactly(w: World, organization: nat, blobs: seq<Blob>)
    requires !AfterBlobs(w, organization, blobs).1.broken
    ensures AfterBlobs(w, organization, blobs).1.failed > 0 <==> AnyBad(blobs)
  {
    if blobs != [] {
      var front, last := blobs[..|blobs| - 1], blobs[|blobs| - 1];
      assert blobs == front + [last];
      TallyNext(w, organization, blobs, front, last);
      FailedExactly(w, organization, front);
      AnyBadNext(front, last);
    }
  }

  predicate IsPresent(r: Report, organization: nat, id: string) {
    r.present && r.organization == organization && r.id == id
  }

  /** What one file comes to: bad without a number, skipped when a report with it is present in the organisation, and
      otherwise imported, unless storing it breaks. A report that was removed does not hinder it. */
  lemma OutcomeExactly(w: World, organization: nat, blob: Blob)
    ensures var next, outcome := AfterBlob(w, organization, blob), Outcome(w.reports, organization, blob);
            if IsBad(blob) then next == w && outcome == Tally(0, 0, 1, false)
            else if exists i :: 0 <= i < |w.reports| && IsPresent(w.reports[i], organization, blob.id) then
              next == w && outcome == Tally(0, 1, 0, false)
            else
              && next.reports == w.reports + [Filled(organization, blob)]
              && outcome == (if Breaks(blob) then Tally(0, 0, 0, true) else Tally(1, 0, 0, false))
  {
    if blob.Parsed? {
      OpensOne(w, organization, blob);
      if exists i :: 0 <= i < |w.reports| && IsPresent(w.reports[i], organization, blob.id) {
        var i :| 0 <= i < |w.reports| && IsPresent(w.reports[i], organization, blob.id);
        assert Known(w.reports, organization, blob.id);
      }
    }
  }

  /** A job that does not break fails exactly when some of its files are bad and none brings a new number; a job that
      breaks always does. */
  lemma StatusExactly(w: World, organization: nat, blobs: seq<Blob>)
    ensures var tally := AfterBlobs(w, organization, blobs).1;
            StatusOf(tally) == if tally.broken || (AnyBad(blobs) && NewIds(w.reports, organization, blobs) == {})
                               then Failed else Completed
  {
    if !AfterBlobs(w, organization, blobs).1.broken {
      FailedExactly(w, organization, blobs);
      ImportedExactly(w, organization, blobs, "");
    }
  }

  // Which reports are complete --------------------------------------------------------------------------------

  /** What is on record about a report right after a file opened it. */
  function Filled(organization: nat, p: Blob): Report
    requires p.Parsed?
  {
    var good, bad := Volume(p.lines, true), Volume(p.lines, false);
    if Breaks(p) then Report(organization, p.id, 0, 0, 0, true, false)
    else Report(organization, p.id, good + bad, good, bad, true, true)
  }

  /** The files of a job that open a report, in order. */
  function Openers(w: World, organization: nat, blobs: seq<Blob>): (openers: seq<Blob>)
    ensures forall m :: 0 <= m < |openers| ==> openers[m] in blobs && openers[m].Parsed? && openers[m].id != ""
  {
    if blobs == [] then []
    else
      var n := |blobs| - 1;
      var (before, tally) := AfterBlobs(w, organization, blobs[..n]);
      var last := blobs[n];
      assert blobs == blobs[..n] + [last];
      Openers(w, organization, blobs[..n])
      + if tally.broken || last.Unreadable? || last.id == "" || Known(before.reports, organization, last.id) then []
        else [last]
  }

  lemma OpensOne(w: World, organization: nat, p: Blob)
    requires p.Parsed?
    ensures AfterReport(w, organization, p).reports == w.reports + [Filled(organization, p)]
  {
    var r := |w.reports|;
    assert Opened(w, organization, p.id).reports[r] == Report(organization, p.id, 0, 0, 0, true, false);
  }

  /** A job adds one report for each of these files, filled when the file does not break, and changes no other. */
  lemma {:induction false} JobOpens(w: World, organization: nat, blobs: seq<Blob>)
    ensures var next, openers := AfterBlobs(w, organization, blobs).0, Openers(w, organization, blobs);
            && w.reports <= next.reports && |next.reports| == |w.reports| + |openers|
            && forall m :: 0 <= m < |openers| ==> next.reports[|w.reports| + m] == Filled(organization, openers[m])
  {
    if blobs != [] {
      var n := |blobs| - 1;
      JobOpens(w, organization, blobs[..n]);
      var (before, tally) := AfterBlobs(w, organization, blobs[..n]);
      if Openers(w, organization, blobs) != Openers(w, organization, blobs[..n]) {
        OpensOne(before, organization, blobs[n]);
      }
    }
  }

  lemma OpenersNext(w: World, organization: nat, blobs: seq<Blob>, front: seq<Blob>, last: Blob)
    requires blobs == front + [last]
    ensures var before, openers := AfterBlobs(w, organization, front).1.broken, Openers(w, organization, front);
            var broken, all := AfterBlobs(w, organization, blobs).1.broken, Openers(w, organization, blobs);
            || (all == openers && broken == before)
            || (!before && last.Parsed? && all == openers + [last] && broken == Breaks(last))
  {
    assert blobs[..|blobs| - 1] == front && blobs[|blobs| - 1] == last;
  }

  predicate AllParsed(openers: seq<Blob>) { forall m :: 0 <= m < |openers| ==> openers[m].Parsed? }

  predicate LastBreaks(openers: seq<Blob>)
    requires AllParsed(openers)
  {
    openers != [] && Breaks(openers[|openers| - 1])
  }

  predicate EarlierWhole(openers: seq<Blob>)
    requires AllParsed(openers)
  {
    forall m :: 0 <= m < |openers| - 1 ==> !Breaks(openers[m])
  }

  lemma OneMoreOpener(openers: seq<Blob>, last: Blob)
    requires AllParsed(openers) && last.Parsed? && EarlierWhole(openers) && !LastBreaks(openers)
    ensures AllParsed(openers + [last]) && EarlierWhole(openers + [last])
    ensures LastBreaks(openers + [last]) <==> Breaks(last)
  {
  }

  /** A job breaks exactly when the last of the files it opens a report for does; none before it breaks. */
  lemma {:induction false} BreaksExactly(w: World, organization: nat, blobs: seq<Blob>)
    ensures AllParsed(Openers(w, organization, blobs)) && EarlierWhole(Openers(w, organization, blobs))
    ensures AfterBlobs(w, organization, blobs).1.broken <==> LastBreaks(Openers(w, organization, blobs))
  {
    if blobs != [] {
      var front, last := blobs[..|blobs| - 1], blobs[|blobs| - 1];
      assert blobs == front + [last];
      BreaksExactly(w, organization, front);
      OpenersNext(w, organization, blobs, front, last);
      if !AfterBlobs(w, organization, front).1.broken && last.Parsed? {
        OneMoreOpener(Openers(w, organization, front), last);
      }
    }
  }

  /** Whether step t opened report i, and with which file. */
  predicate OpenedBy(worlds: seq<World>, steps: seq<Step>, t: nat, i: nat, opener: Blob) {
    && t < |steps| && t + 1 < |worlds| && steps[t].Job? && opener in steps[t].blobs && opener.Parsed? && opener.id != ""
    && |worlds[t].reports| <= i < |worlds[t + 1].reports|
    && worlds[t + 1].reports[i] == Filled(steps[t].organization, opener)
  }

  predicate Removes(step: Step, i: nat) { step.Purge? && i in step.gone }

  /** A step keeps the reports there are, but for those it removes. */
  lemma StepReports(w: World, step: Step, i: nat)
    requires i < |w.reports|
    ensures var next := After(w, step);
            && i < |next.reports|
            && next.reports[i] == if Removes(step, i) then w.reports[i].(present := false) else w.reports[i]
  {
    if step.Job? {
      JobOpens(w, step.organization, step.blobs);
    }
  }

  /** Once stored a report only ever loses its presence, and that only to the retention. */
  lemma {:induction false} ReportStays(worlds: seq<World>, steps: seq<Step>, from: nat, to: nat, i: nat)
    requires IsRun(worlds, steps) && from <= to <= |steps| && i < |worlds[from].reports|
    ensures i < |worlds[to].reports|
    ensures worlds[to].reports[i].(present := true) == worlds[from].reports[i].(present := true)
    ensures worlds[to].reports[i].present
        <==> worlds[from].reports[i].present && forall k :: from <= k < to ==> !Removes(steps[k], i)
  {
    if from < to {
      var k := to - 1;
      ReportStays(worlds, steps, from, k, i);
      assert worlds[k + 1] == After(worlds[k], steps[k]);
      StepReports(worlds[k], steps[k], i);
    }
  }

  lemma {:induction false} OpenedOnce(worlds: seq<World>, steps: seq<Step>, k: nat, i: nat)
    returns (t: nat, opener: Blob)
    requires IsRun(worlds, steps) && k <= |steps| && i < |worlds[k].reports|
    ensures t < k && OpenedBy(worlds, steps, t, i, opener)
  {
    assert worlds[k - 1 + 1] == After(worlds[k - 1], steps[k - 1]);
    if i < |worlds[k - 1].reports| {
      t, opener := OpenedOnce(worlds, steps, k - 1, i);
    } else {
      t := k - 1;
      opener := OpenedNow(worlds[t], steps[t], worlds[k], i);
    }
  }

  lemma OpenedNow(w: World, step: Step, next: World, i: nat) returns (opener: Blob)
    requires next == After(w, step) && |w.reports| <= i < |next.reports|
    ensures step.Job? && opener in step.blobs && opener.Parsed? && opener.id != ""
    ensures next.reports[i] == Filled(step.organization, opener)
  {
    JobOpens(w, step.organization, step.blobs);
    opener := Openers(w, step.organization, step.blobs)[i - |w.reports|];
  }

  /** At every moment of every run, whatever came in between: a report is on record as the file that opened it left it,
      so it is complete exactly when that file did not break. */
  lemma CompleteExactly(worlds: seq<World>, steps: seq<Step>, k: nat, i: nat) returns (t: nat, opener: Blob)
    requires IsRun(worlds, steps) && k <= |steps| && i < |worlds[k].reports|
    ensures t < k && OpenedBy(worlds, steps, t, i, opener)
    ensures worlds[k].reports[i].(present := true) == Filled(steps[t].organization, opener)
    ensures worlds[k].reports[i].complete <==> !Breaks(opener)
  {
    t, opener := OpenedOnce(worlds, steps, k, i);
    ReportStays(worlds, steps, t + 1, k, i);
  }

  /** Until it is removed, a report that broke counts as known: however often a file with its number comes, also whole
      and among others, it is skipped, and the report stays open. */
  lemma BrokenStaysOpen(worlds: seq<World>, steps: seq<Step>, t: nat, k: nat, i: nat, opener: Blob, again: Blob)
    requires IsRun(worlds, steps) && t < k <= |steps| && OpenedBy(worlds, steps, t, i, opener) && Breaks(opener)
    requires forall j :: t < j < k ==> !Removes(steps[j], i)
    requires again.Parsed? && again.id == opener.id
    ensures i < |worlds[k].reports| && worlds[k].reports[i].present && !worlds[k].reports[i].complete
    ensures AfterBlob(worlds[k], steps[t].organization, again) == worlds[k]
    ensures Outcome(worlds[k].reports, steps[t].organization, again) == Tally(0, 1, 0, false)
  {
    ReportStays(worlds, steps, t + 1, k, i);
    assert Known(worlds[k].reports, steps[t].organization, again.id);
  }
}
