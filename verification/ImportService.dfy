/** Importing reports: what is stored for each, and the running totals of the source addresses. */
module ImportService {
  import opened Wrappers

  /** One line of a report, with the verdict of the evaluation. */
  datatype Line = Line(address: string, count: int, passed: bool)

  /** What a file of the job turns out to be; breaks: storing raises after that many lines. */
  datatype Blob = Unreadable | Parsed(id: string, lines: seq<Line>, breaks: Option<nat>)

  datatype Source = Source(organization: nat, address: string, total: int, passed: int, failed: int)

  /** present: not yet removed by the retention; complete: its totals were written. */
  datatype Report = Report(organization: nat, id: string, total: int, passed: int, failed: int, present: bool,
                           complete: bool)

  datatype Record = Record(organization: nat, report: nat, address: string, count: int, passed: bool)

  /** All sources, and all reports and records ever stored. */
  datatype World = World(sources: seq<Source>, reports: seq<Report>, records: seq<Record>)

  // Storing -------------------------------------------------------------------------------------------------

  function Place(sources: seq<Source>, organization: nat, address: string): (i: nat)
    ensures i <= |sources|
    ensures i < |sources| ==> sources[i].organization == organization && sources[i].address == address
  {
    if sources == [] then 0
    else
      var i := Place(sources[..|sources| - 1], organization, address);
      var last := sources[|sources| - 1];
      if i < |sources| - 1 || (last.organization == organization && last.address == address) then i else |sources|
  }

  function Counted(s: Source, count: int, passed: bool): Source {
    s.(total := s.total + count, passed := s.passed + if passed then count else 0,
       failed := s.failed + if passed then 0 else count)
  }

  function Upserted(sources: seq<Source>, organization: nat, line: Line): seq<Source> {
    var i := Place(sources, organization, line.address);
    if i == |sources| then sources + [Counted(Source(organization, line.address, 0, 0, 0), line.count, line.passed)]
    else sources[i := Counted(sources[i], line.count, line.passed)]
  }

  function AfterLine(w: World, organization: nat, report: nat, line: Line): World {
    World(Upserted(w.sources, organization, line), w.reports,
          w.records + [Record(organization, report, line.address, line.count, line.passed)])
  }

  function AfterLines(w: World, organization: nat, report: nat, lines: seq<Line>): (next: World)
    ensures next.reports == w.reports
  {
    if lines == [] then w
    else AfterLine(AfterLines(w, organization, report, lines[..|lines| - 1]), organization, report, lines[|lines| - 1])
  }

  function Opened(w: World, organization: nat, id: string): World {
    w.(reports := w.reports + [Report(organization, id, 0, 0, 0, true, false)])
  }

  function Volume(lines: seq<Line>, passed: bool): int {
    if lines == [] then 0
    else Volume(lines[..|lines| - 1], passed)
         + if lines[|lines| - 1].passed == passed then lines[|lines| - 1].count else 0
  }

  predicate Breaks(p: Blob)
    requires p.Parsed?
  {
    p.breaks.Some? && p.breaks.value <= |p.lines|
  }

  /** A report that breaks keeps the lines stored so far, and no totals. */
  function AfterReport(w: World, organization: nat, p: Blob): World
    requires p.Parsed?
  {
    var r := |w.reports|;
    if Breaks(p) then AfterLines(Opened(w, organization, p.id), organization, r, p.lines[..p.breaks.value])
    else Closed(AfterLines(Opened(w, organization, p.id), organization, r, p.lines), r, p.lines)
  }

  function Closed(w: World, r: nat, lines: seq<Line>): World
    requires r < |w.reports|
  {
    var good, bad := Volume(lines, true), Volume(lines, false);
    w.(reports := w.reports[r := w.reports[r].(total := good + bad, passed := good, failed := bad, complete := true)])
  }

  predicate Known(reports: seq<Report>, organization: nat, id: string) {
    exists i ::
      0 <= i < |reports| && reports[i].present && reports[i].organization == organization && reports[i].id == id
  }

  // A job -----------------------------------------------------------------------------------------------------

  datatype Status = Processing | Completed | Failed

  /** broken: the job ended with an exception; its counts are not written then. */
  datatype Tally = Tally(imported: nat, skipped: nat, failed: nat, broken: bool)

  function Outcome(reports: seq<Report>, organization: nat, blob: Blob): Tally {
    if blob.Unreadable? || blob.id == "" then Tally(0, 0, 1, false)
    else if Known(reports, organization, blob.id) then Tally(0, 1, 0, false)
    else if Breaks(blob) then Tally(0, 0, 0, true)
    else Tally(1, 0, 0, false)
  }

  function Plus(a: Tally, b: Tally): Tally {
    Tally(a.imported + b.imported, a.skipped + b.skipped, a.failed + b.failed, a.broken || b.broken)
  }

  function AfterBlob(w: World, organization: nat, blob: Blob): World {
    if blob.Unreadable? || blob.id == "" || Known(w.reports, organization, blob.id) then w
    else AfterReport(w, organization, blob)
  }

  /** The files one after the other, up to the first that breaks. */
  function AfterBlobs(w: World, organization: nat, blobs: seq<Blob>): (World, Tally) {
    if blobs == [] then (w, Tally(0, 0, 0, false))
    else
      var (before, tally) := AfterBlobs(w, organization, blobs[..|blobs| - 1]);
      var last := blobs[|blobs| - 1];
      if tally.broken then (before, tally)
      else (AfterBlob(before, organization, last), Plus(tally, Outcome(before.reports, organization, last)))
  }

  function StatusOf(tally: Tally): Status {
    if tally.broken then Failed else if tally.failed == 0 then Completed
    else if tally.imported == 0 then Failed else Completed
  }

  // The books ---------------------------------------------------------------------------------------------------

  /** The counts of the records a question is about. */
  function Sum(records: seq<Record>, about: Record -> bool): int {
    if records == [] then 0
    else Sum(records[..|records| - 1], about)
         + if about(records[|records| - 1]) then records[|records| - 1].count else 0
  }

  function At(organization: nat, address: string, passed: bool): Record -> bool {
    (r: Record) => r.organization == organization && r.address == address && r.passed == passed
  }

  function In(report: nat, passed: bool): Record -> bool {
    (r: Record) => r.report == report && r.passed == passed
  }

  function Of(organization: nat): Record -> bool {
    (r: Record) => r.organization == organization
  }

  function SourceTotal(sources: seq<Source>, organization: nat): int {
    if sources == [] then 0
    else SourceTotal(sources[..|sources| - 1], organization)
         + if sources[|sources| - 1].organization == organization then sources[|sources| - 1].total else 0
  }

  predicate SourceRight(s: Source, records: seq<Record>) {
    && s.passed == Sum(records, At(s.organization, s.address, true))
    && s.failed == Sum(records, At(s.organization, s.address, false))
    && s.total == s.passed + s.failed
  }

  /** A complete report counts its records; one that broke counts nothing. */
  predicate ReportRight(reports: seq<Report>, records: seq<Record>, i: nat)
    requires i < |reports|
  {
    var r := reports[i];
    && r.total == r.passed + r.failed
    && r.passed == (if r.complete then Sum(records, In(i, true)) else 0)
    && r.failed == (if r.complete then Sum(records, In(i, false)) else 0)
  }

  predicate OneEach(sources: seq<Source>) {
    forall i, j :: 0 <= i < j < |sources| ==>
      !(sources[i].organization == sources[j].organization && sources[i].address == sources[j].address)
  }

  predicate Filed(record: Record, reports: seq<Report>) {
    record.report < |reports| && record.organization == reports[record.report].organization
  }

  predicate Listed(record: Record, sources: seq<Source>) {
    Place(sources, record.organization, record.address) < |sources|
  }

  ghost predicate Balanced(w: World) {
    && OneEach(w.sources)
    && (forall i :: 0 <= i < |w.sources| ==> SourceRight(w.sources[i], w.records))
    && (forall i: nat :: i < |w.reports| ==> ReportRight(w.reports, w.records, i))
    && (forall k :: 0 <= k < |w.records| ==> Filed(w.records[k], w.reports) && Listed(w.records[k], w.sources))
    && (forall organization :: SourceTotal(w.sources, organization) == Sum(w.records, Of(organization)))
  }

  lemma SumNext(records: seq<Record>, r: Record, about: Record -> bool)
    ensures Sum(records + [r], about) == Sum(records, about) + if about(r) then r.count else 0
  {
    assert (records + [r])[..|records|] == records;
  }

  lemma {:induction false} PlaceIs(sources: seq<Source>, organization: nat, address: string, i: nat)
    requires OneEach(sources) && i < |sources|
    requires sources[i].organization == organization && sources[i].address == address
    ensures Place(sources, organization, address) == i
  {
    var n := |sources| - 1;
    if i < n {
      assert OneEach(sources[..n]);
      PlaceIs(sources[..n], organization, address, i);
    } else if Place(sources[..n], organization, address) < n {
      assert false;
    }
  }
}
