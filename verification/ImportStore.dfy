/** The tables of the import and the operations that change them. */
module ImportStore {
  import opened Wrappers
  import opened ImportService

  class Database {
    var sources: seq<Source>
    var reports: seq<Report>
    var records: seq<Record>

    function Data(): World
      reads this
    {
      World(sources, reports, records)
    }

    constructor ()
      ensures Data() == World([], [], [])
    {
      sources, reports, records := [], [], [];
    }

    method FindSource(organization: nat, address: string) returns (i: nat)
      ensures i == Place(sources, organization, address)
    {
      for k := 0 to |sources|
        invariant Place(sources[..k], organization, address) == k
      {
        assert sources[..k + 1][..k] == sources[..k];
        if sources[k].organization == organization && sources[k].address == address {
          PlaceOfPrefix(sources, organization, address, k + 1);
          return k;
        }
      }
      assert sources[..|sources|] == sources;
      i := |sources|;
    }

    method UpsertSourceIp(organization: nat, line: Line)
      modifies this`sources
      ensures sources == Upserted(old(sources), organization, line)
    {
      var i := FindSource(organization, line.address);
      if i == |sources| {
        var good, bad := if line.passed then line.count else 0, if line.passed then 0 else line.count;
        sources := sources + [Source(organization, line.address, line.count, good, bad)];
      } else {
        var s := sources[i];
        s := s.(total := s.total + line.count);
        if line.passed {
          s := s.(passed := s.passed + line.count);
        } else {
          s := s.(failed := s.failed + line.count);
        }
        sources := sources[i := s];
      }
    }

    method CheckDuplicate(organization: nat, id: string) returns (known: bool)
      ensures known <==> Known(reports, organization, id)
    {
      for i := 0 to |reports|
        invariant forall j :: 0 <= j < i ==>
          !(reports[j].present && reports[j].organization == organization && reports[j].id == id)
      {
        if reports[i].present && reports[i].organization == organization && reports[i].id == id {
          return true;
        }
      }
      return false;
    }

    method StoreLine(organization: nat, r: nat, line: Line)
      modifies this`records, this`sources
      ensures Data() == AfterLine(old(Data()), organization, r, line)
    {
      records := records + [Record(organization, r, line.address, line.count, line.passed)];
      UpsertSourceIp(organization, line);
    }

    /** Store a report with its lines and totals; false when storing raises before that is done. */
    method StoreParsedReport(organization: nat, p: Blob) returns (stored: bool)
      requires p.Parsed?
      modifies this
      ensures Data() == AfterReport(old(Data()), organization, p) && stored == !Breaks(p)
    {
      var r := |reports|;
      reports := reports + [Report(organization, p.id, 0, 0, 0, true, false)];
      ghost var start := Data();
      assert start == Opened(old(Data()), organization, p.id);
      var total, good, bad := 0, 0, 0;
      for k := 0 to |p.lines|
        invariant p.breaks.Some? ==> k <= p.breaks.value
        invariant Data() == AfterLines(start, organization, r, p.lines[..k])
        invariant good == Volume(p.lines[..k], true) && bad == Volume(p.lines[..k], false) && total == good + bad
      {
        if p.breaks == Some(k) {
          return false;
        }
        var line := p.lines[k];
        NextLine(start, organization, r, p.lines, k);
        StoreLine(organization, r, line);
        total := total + line.count;
        if line.passed {
          good := good + line.count;
        } else {
          bad := bad + line.count;
        }
      }
      assert p.lines[..|p.lines|] == p.lines;
      if p.breaks == Some(|p.lines|) {
        return false;
      }
      reports := reports[r := reports[r].(total := total, passed := good, failed := bad, complete := true)];
      stored := true;
    }

    /** Import the files of a job; a job that breaks ends there and counts nothing. */
    method ProcessImportJob(organization: nat, blobs: seq<Blob>)
      returns (status: Status, imported: nat, skipped: nat, failed: nat)
      modifies this
      ensures Data() == AfterBlobs(old(Data()), organization, blobs).0
      ensures var tally := AfterBlobs(old(Data()), organization, blobs).1;
              && status == StatusOf(tally)
              && (if tally.broken then imported == skipped == failed == 0
                  else imported == tally.imported && skipped == tally.skipped && failed == tally.failed)
    {
      imported, skipped, failed := 0, 0, 0;
      ghost var start := Data();
      for k := 0 to |blobs|
        invariant AfterBlobs(start, organization, blobs[..k]) == (Data(), Tally(imported, skipped, failed, false))
      {
        assert blobs[..k + 1][..k] == blobs[..k];
        ghost var before := Data();
        if blobs[k].Unreadable? || blobs[k].id == "" {
          failed := failed + 1;
          continue;
        }
        var known := CheckDuplicate(organization, blobs[k].id);
        if known {
          skipped := skipped + 1;
          continue;
        }
        var stored := StoreParsedReport(organization, blobs[k]);
        if !stored {
          BrokenFor(start, organization, blobs, k + 1);
          return Failed, 0, 0, 0;
        }
        imported := imported + 1;
      }
      assert blobs[..|blobs|] == blobs;
      status := if failed == 0 then Completed else if imported == 0 then Failed else Completed;
    }
  }

  lemma NextLine(w: World, organization: nat, r: nat, lines: seq<Line>, k: nat)
    requires k < |lines|
    ensures AfterLines(w, organization, r, lines[..k + 1])
         == AfterLine(AfterLines(w, organization, r, lines[..k]), organization, r, lines[k])
    ensures Volume(lines[..k + 1], true) == Volume(lines[..k], true) + if lines[k].passed then lines[k].count else 0
    ensures Volume(lines[..k + 1], false) == Volume(lines[..k], false) + if lines[k].passed then 0 else lines[k].count
  {
    assert lines[..k + 1][..k] == lines[..k];
  }

  lemma {:induction false} PlaceOfPrefix(sources: seq<Source>, organization: nat, address: string, k: nat)
    requires k <= |sources| && Place(sources[..k], organization, address) < k
    ensures Place(sources, organization, address) == Place(sources[..k], organization, address)
  {
    if k < |sources| {
      var n := |sources| - 1;
      assert sources[..n][..k] == sources[..k];
      PlaceOfPrefix(sources[..n], organization, address, k);
    } else {
      assert sources[..k] == sources;
    }
  }

  /** Nothing is read after a file that breaks. */
  lemma {:induction false} BrokenFor(w: World, organization: nat, blobs: seq<Blob>, k: nat)
    requires k <= |blobs| && AfterBlobs(w, organization, blobs[..k]).1.broken
    ensures AfterBlobs(w, organization, blobs) == AfterBlobs(w, organization, blobs[..k])
  {
    if k < |blobs| {
      var n := |blobs| - 1;
      assert blobs[..n][..k] == blobs[..k];
      BrokenFor(w, organization, blobs[..n], k);
    } else {
      assert blobs[..k] == blobs;
    }
  }
}
