/** The tables as the program changes them: statement by statement, batch after batch. */
module RetentionStore {
  import opened Wrappers
  import opened Retention
  import RetentionRuns
  import RetentionOrder

  lemma MinExists(times: map<nat, int>, ids: set<nat>) returns (k: nat)
    requires ids != {} && ids <= times.Keys
    ensures k in ids && forall j :: j in ids ==> times[k] <= times[j]
  {
    var any :| any in ids;
    var rest := ids - {any};
    k := any;
    if rest != {} {
      k := MinExists(times, rest);
      if times[any] < times[k] {
        k := any;
      }
    }
    assert forall j :: j in ids ==> j == any || j in rest;
  }

  predicate OldestFirst(times: map<nat, int>, ids: set<nat>)
    requires ids <= times.Keys
  {
    forall a, b :: a in ids && b in times && b !in ids ==> times[a] <= times[b]
  }

  /** The oldest rows, at most limit. */
  method PickOldest(times: map<nat, int>, limit: nat) returns (ids: set<nat>)
    ensures IsBatch(ids, times.Keys, limit) && OldestFirst(times, ids)
  {
    ids := {};
    var rest := times.Keys;
    while |ids| < limit && rest != {}
      invariant ids + rest == times.Keys && ids !! rest && |ids| <= limit
      invariant forall a, b :: a in ids && b in rest ==> times[a] <= times[b]
      decreases |rest|
    {
      ghost var _ := MinExists(times, rest);
      var k :| k in rest && forall j :: j in rest ==> times[k] <= times[j];
      ids, rest := ids + {k}, rest - {k};
    }
    RetentionRuns.CardinalityGrows(ids, times.Keys);
    if rest == {} {
      assert ids == times.Keys;
    }
  }

  /** Any of the rows, at most limit. */
  method Pick(eligible: set<nat>, limit: nat) returns (ids: set<nat>)
    ensures IsBatch(ids, eligible, limit)
  {
    ids := {};
    var rest := eligible;
    while |ids| < limit && rest != {}
      invariant ids + rest == eligible && ids !! rest && |ids| <= limit
      decreases |rest|
    {
      var k :| k in rest;
      ids, rest := ids + {k}, rest - {k};
    }
    RetentionRuns.CardinalityGrows(ids, eligible);
    if rest == {} {
      assert ids == eligible;
    }
  }

  class Database {
    var reports: map<nat, Report>
    var records: map<nat, Record>
    var results: map<nat, AuthResult>
    var events: map<nat, Event>
    var jobs: map<nat, Job>
    var errors: map<nat, JobError>
    var messages: map<nat, Message>
    var attachments: map<nat, Attachment>
    var failureReports: map<nat, FailureReport>
    var tlsReports: map<nat, TlsReport>
    var policies: map<nat, Policy>
    var failures: map<nat, Failure>
    var rejections: map<nat, Logged>
    var logins: map<nat, Logged>

    function Data(): Tables
      reads this
    {
      Tables(reports, records, results, events, jobs, errors, messages, attachments, failureReports, tlsReports,
             policies, failures, rejections, logins)
    }

    constructor (t: Tables)
      ensures Data() == t
    {
      reports, records, results, events := t.reports, t.records, t.results, t.events;
      jobs, errors, messages, attachments := t.jobs, t.errors, t.messages, t.attachments;
      failureReports, tlsReports, policies := t.failureReports, t.tlsReports, t.policies;
      failures, rejections, logins := t.failures, t.rejections, t.logins;
    }

    // Single statements ---------------------------------------------------------------------------------

    method DeleteResultsOf(gone: set<nat>)
      modifies this`results
      ensures results == ResultsWithout(old(Data()), gone)
    {
      var owned := set k | k in records && records[k].report in gone;
      results := map k | k in results && results[k].record !in owned :: results[k];
    }

    method DeleteRecordsOf(gone: set<nat>)
      modifies this`records
      ensures records == RecordsWithout(old(Data()), gone)
    {
      records := map k | k in records && records[k].report !in gone :: records[k];
    }

    method ClearEventReports(gone: set<nat>)
      modifies this`events
      ensures events == EventsWithout(old(Data()), gone, {})
    {
      events := map k | k in events ::
        if events[k].report.Some? && events[k].report.value in gone then events[k].(report := None) else events[k];
    }

    method ClearEventMessages(gone: set<nat>)
      modifies this`events
      ensures events == EventsWithout(old(Data()), {}, gone)
    {
      events := map k | k in events ::
        if events[k].message.Some? && events[k].message.value in gone then events[k].(message := None) else events[k];
    }

    method ClearAttachmentJobs(gone: set<nat>)
      modifies this`attachments
      ensures attachments == AttachmentsWithout(old(Data()), {}, gone)
    {
      attachments := map k | k in attachments ::
        if attachments[k].job.Some? && attachments[k].job.value in gone then attachments[k].(job := None)
        else attachments[k];
    }

    method DeleteErrorsOf(gone: set<nat>)
      modifies this`errors
      ensures errors == ErrorsWithout(old(Data()), gone)
    {
      errors := map k | k in errors && errors[k].job !in gone :: errors[k];
    }

    method DeleteJobs(gone: set<nat>)
      modifies this`jobs
      ensures jobs == JobsWithout(old(Data()), gone, {})
    {
      jobs := jobs - gone;
    }

    method ClearJobMessages(gone: set<nat>)
      modifies this`jobs
      ensures jobs == JobsWithout(old(Data()), {}, gone)
    {
      jobs := map k | k in jobs ::
        if jobs[k].message.Some? && jobs[k].message.value in gone then jobs[k].(message := None) else jobs[k];
    }

    method ClearFailureReportMessages(gone: set<nat>)
      modifies this`failureReports
      ensures failureReports == FailureReportsWithout(old(Data()), {}, gone)
    {
      failureReports := map k | k in failureReports ::
        if failureReports[k].message.Some? && failureReports[k].message.value in gone
        then failureReports[k].(message := None) else failureReports[k];
    }

    method ClearTlsReportMessages(gone: set<nat>)
      modifies this`tlsReports
      ensures tlsReports == TlsReportsWithout(old(Data()), {}, gone)
    {
      tlsReports := map k | k in tlsReports ::
        if tlsReports[k].message.Some? && tlsReports[k].message.value in gone
        then tlsReports[k].(message := None) else tlsReports[k];
    }

    method DeleteAttachmentsOf(gone: set<nat>)
      modifies this`attachments
      ensures attachments == AttachmentsWithout(old(Data()), gone, {})
    {
      attachments := map k | k in attachments && attachments[k].message !in gone :: attachments[k];
    }

    method DeleteMessages(gone: set<nat>)
      modifies this`messages
      ensures messages == MessagesWithout(old(Data()), gone, {})
    {
      messages := messages - gone;
    }

    method DeleteFailureReports(gone: set<nat>)
      modifies this`failureReports
      ensures failureReports == FailureReportsWithout(old(Data()), gone, {})
    {
      failureReports := failureReports - gone;
    }

    method DeleteFailuresOf(gone: set<nat>)
      modifies this`failures
      ensures failures == FailuresWithout(old(Data()), gone)
    {
      var owned := set k | k in policies && policies[k].report in gone;
      failures := map k | k in failures && failures[k].policy !in owned :: failures[k];
    }

    method DeletePoliciesOf(gone: set<nat>)
      modifies this`policies
      ensures policies == PoliciesWithout(old(Data()), gone)
    {
      policies := map k | k in policies && policies[k].report !in gone :: policies[k];
    }

    method DeleteTlsReports(gone: set<nat>)
      modifies this`tlsReports
      ensures tlsReports == TlsReportsWithout(old(Data()), gone, {})
    {
      tlsReports := tlsReports - gone;
    }

    method ForgetRaws(gone: set<nat>)
      modifies this`messages
      ensures messages == MessagesWithout(old(Data()), {}, gone)
    {
      messages := map k | k in messages :: if k in gone then messages[k].(raw := None) else messages[k];
    }

    // Rows with everything that belongs to them --------------------------------------------------------------

    method DeleteReports(gone: set<nat>) returns (ghost moments: seq<Tables>)
      modifies this
      ensures Data() == Without(old(Data()), Nothing().(reports := gone))
      ensures moments == RetentionOrder.ReportMoments(old(Data()), gone)
    {
      ghost var t := Data();
      DeleteResultsOf(gone);
      moments := [Data()];
      DeleteRecordsOf(gone);
      moments := moments + [Data()];
      ClearEventReports(gone);
      moments := moments + [Data()];
      reports := reports - gone;
      moments := moments + [Data()];
      ReportsTaken(t, gone);
    }

    method DeleteTlsReportsWhole(gone: set<nat>) returns (ghost moments: seq<Tables>)
      modifies this
      ensures Data() == Without(old(Data()), Nothing().(tlsReports := gone))
      ensures moments == RetentionOrder.TlsReportMoments(old(Data()), gone)
    {
      ghost var t := Data();
      DeleteFailuresOf(gone);
      moments := [Data()];
      DeletePoliciesOf(gone);
      moments := moments + [Data()];
      DeleteTlsReports(gone);
      moments := moments + [Data()];
      TlsReportsTaken(t, gone);
    }

    method DeleteJobsWhole(gone: set<nat>) returns (ghost moments: seq<Tables>)
      modifies this
      ensures Data() == Without(old(Data()), Nothing().(jobs := gone))
      ensures moments == RetentionOrder.JobMoments(old(Data()), gone)
    {
      ghost var t := Data();
      ClearAttachmentJobs(gone);
      moments := [Data()];
      DeleteErrorsOf(gone);
      moments := moments + [Data()];
      DeleteJobs(gone);
      moments := moments + [Data()];
      JobsTaken(t, gone);
    }

    method ClearMentions(gone: set<nat>) returns (ghost moments: seq<Tables>)
      modifies this`jobs, this`events, this`failureReports, this`tlsReports
      ensures moments == RetentionOrder.MentionMoments(old(Data()), gone) && Data() == moments[3]
    {
      ghost var t := Data();
      ClearJobMessages(gone);
      ghost var a := Data();
      assert a == t.(jobs := JobsWithout(t, {}, gone));
      ClearEventMessages(gone);
      ghost var b := Data();
      assert b == a.(events := EventsWithout(a, {}, gone));
      ClearFailureReportMessages(gone);
      ghost var c := Data();
      assert c == b.(failureReports := FailureReportsWithout(b, {}, gone));
      ClearTlsReportMessages(gone);
      moments := [a, b, c, Data()];
    }

    method DeleteMailRows(gone: set<nat>) returns (ghost moments: seq<Tables>)
      modifies this`attachments, this`messages
      ensures moments == RetentionOrder.MailMoments(old(Data()), gone) && Data() == moments[1]
    {
      DeleteAttachmentsOf(gone);
      moments := [Data()];
      DeleteMessages(gone);
      moments := moments + [Data()];
    }

    method DeleteMessagesWhole(gone: set<nat>) returns (ghost moments: seq<Tables>)
      modifies this
      ensures Data() == Without(old(Data()), Nothing().(messages := gone))
      ensures moments == RetentionOrder.MessageMoments(old(Data()), gone)
    {
      ghost var t := Data();
      moments := ClearMentions(gone);
      ghost var last := DeleteMailRows(gone);
      moments := moments + last;
      MessagesTaken(t, gone);
    }

    // The batches -----------------------------------------------------------------------------------------

    /** The oldest reports of an organisation with their records and results. */
    method PurgeReports(o: Organization, now: int, s: Settings) returns (count: nat, ghost ids: set<nat>)
      modifies this
      ensures Moves(old(Data()), Reports(o), ids, Data(), now, s) && count == |ids|
      ensures IsOldest(old(Data()), Reports(o), ids, now, s)
    {
      var times := map k | k in reports && reports[k].organization == o.id && reports[k].created < now - DAY * o.days ::
                     reports[k].created;
      var chosen := PickOldest(times, s.limit);
      OldestOf(Data(), Reports(o), times, chosen, now, s);
      count, ids := |chosen|, chosen;
      if chosen == {} {
        NoneTaken(Data(), Reports(o));
        return;
      }
      ghost var _ := DeleteReports(chosen);
    }

    method PurgeFailureReports(o: Organization, now: int, s: Settings) returns (count: nat, ghost ids: set<nat>)
      modifies this
      ensures Moves(old(Data()), FailureReports(o), ids, Data(), now, s) && count == |ids|
      ensures IsOldest(old(Data()), FailureReports(o), ids, now, s)
    {
      var days := if o.days <= s.failureDays then o.days else s.failureDays;
      var times := map k | k in failureReports && failureReports[k].organization == o.id
                        && failureReports[k].created < now - DAY * days :: failureReports[k].created;
      var chosen := PickOldest(times, s.limit);
      OldestOf(Data(), FailureReports(o), times, chosen, now, s);
      count, ids := |chosen|, chosen;
      FailureReportsTaken(Data(), chosen);
      if chosen == {} {
        NoneTaken(Data(), FailureReports(o));
      } else {
        DeleteFailureReports(chosen);
      }
    }

    method PurgeTlsReports(o: Organization, now: int, s: Settings) returns (count: nat, ghost ids: set<nat>)
      modifies this
      ensures Moves(old(Data()), TlsReports(o), ids, Data(), now, s) && count == |ids|
      ensures IsOldest(old(Data()), TlsReports(o), ids, now, s)
    {
      var times := map k | k in tlsReports && tlsReports[k].organization == o.id
                        && tlsReports[k].created < now - DAY * o.days :: tlsReports[k].created;
      var chosen := PickOldest(times, s.limit);
      OldestOf(Data(), TlsReports(o), times, chosen, now, s);
      count, ids := |chosen|, chosen;
      if chosen == {} {
        NoneTaken(Data(), TlsReports(o));
        return;
      }
      ghost var _ := DeleteTlsReportsWhole(chosen);
    }

    /** Jobs no report names any more, with their errors. */
    method PurgeImportJobs(o: Organization, now: int, s: Settings) returns (count: nat, ghost ids: set<nat>)
      modifies this
      ensures Moves(old(Data()), Jobs(o), ids, Data(), now, s) && count == |ids|
    {
      var cutoff := now - DAY * o.days;
      var named := set r | r in reports && reports[r].job.Some? :: reports[r].job.value;
      var free := set k | k in jobs && jobs[k].organization == o.id && jobs[k].created < cutoff && k !in named;
      FreeJobs(Data(), named);
      assert free == Eligible(Data(), Jobs(o), now, s);
      var chosen := Pick(free, s.limit);
      count, ids := |chosen|, chosen;
      if chosen == {} {
        NoneTaken(Data(), Jobs(o));
        return;
      }
      ghost var _ := DeleteJobsWhole(chosen);
    }

    method PurgeMessages(o: Organization, now: int, s: Settings) returns (count: nat, ghost ids: set<nat>)
      modifies this
      ensures Moves(old(Data()), Messages(o), ids, Data(), now, s) && count == |ids|
    {
      var cutoff := now - DAY * o.days;
      var found := set k | k in messages && messages[k].organization == o.id && messages[k].received < cutoff;
      var chosen := Pick(found, s.limit);
      count, ids := |chosen|, chosen;
      if chosen == {} {
        NoneTaken(Data(), Messages(o));
        return;
      }
      ghost var _ := DeleteMessagesWhole(chosen);
    }

    method PurgeRawMails(now: int, s: Settings) returns (count: nat, ghost ids: set<nat>)
      modifies this
      ensures Moves(old(Data()), RawMails, ids, Data(), now, s) && count == |ids|
    {
      var cutoff := now - DAY * s.rawDays;
      var found := set k | k in messages && messages[k].raw.Some? && messages[k].received < cutoff;
      var chosen := Pick(found, s.limit);
      RawsTaken(Data(), chosen);
      ForgetRaws(chosen);
      count, ids := |chosen|, chosen;
    }

    method PurgeRejections(now: int, s: Settings) returns (count: nat, ghost ids: set<nat>)
      modifies this
      ensures Moves(old(Data()), Rejections, ids, Data(), now, s) && count == |ids|
    {
      var chosen := set k | k in rejections && rejections[k].created < now - DAY * s.rejectionDays;
      RejectionsTaken(Data(), chosen);
      rejections := rejections - chosen;
      count, ids := |chosen|, chosen;
    }

    method PurgeLoginAttempts(now: int, s: Settings) returns (count: nat, ghost ids: set<nat>)
      modifies this
      ensures Moves(old(Data()), Logins, ids, Data(), now, s) && count == |ids|
    {
      var chosen := set k | k in logins && logins[k].created < now - DAY * s.loginDays;
      LoginsTaken(Data(), chosen);
      logins := logins - chosen;
      count, ids := |chosen|, chosen;
    }

    // The whole run -----------------------------------------------------------------------------------------

    /** Everything about one organisation. */
    method PurgeOrganization(o: Organization, now: int, s: Settings, ghost trace: Trace, sofar: Result)
      returns (result: Result, ghost longer: Trace)
      requires Traces(trace, Data(), sofar, now, s)
      modifies this
      ensures Traces(longer, Data(), result, now, s) && longer.states[0] == trace.states[0]
      ensures longer.tasks == trace.tasks + TasksOf(o)
    {
      result, longer := PurgeDmarc(o, now, s, trace, sofar);
      result, longer := PurgeTlsAndJobs(o, now, s, longer, result);
      ghost var before := Data();
      var count; ghost var ids;
      count, ids := PurgeMessages(o, now, s);
      longer := Longer(longer, before, Messages(o), ids, Data(), result, now, s);
      result := Add(result, Messages(o), count);
    }

    method PurgeDmarc(o: Organization, now: int, s: Settings, ghost trace: Trace, sofar: Result)
      returns (result: Result, ghost longer: Trace)
      requires Traces(trace, Data(), sofar, now, s)
      modifies this
      ensures Traces(longer, Data(), result, now, s) && longer.states[0] == trace.states[0]
      ensures longer.tasks == trace.tasks + [Reports(o), FailureReports(o)]
    {
      result, longer := sofar, trace;
      var count; ghost var ids; ghost var before := Data();
      count, ids := PurgeReports(o, now, s);
      longer := Longer(longer, before, Reports(o), ids, Data(), result, now, s);
      result, before := Add(result, Reports(o), count), Data();
      count, ids := PurgeFailureReports(o, now, s);
      longer := Longer(longer, before, FailureReports(o), ids, Data(), result, now, s);
      result := Add(result, FailureReports(o), count);
    }

    method PurgeTlsAndJobs(o: Organization, now: int, s: Settings, ghost trace: Trace, sofar: Result)
      returns (result: Result, ghost longer: Trace)
      requires Traces(trace, Data(), sofar, now, s)
      modifies this
      ensures Traces(longer, Data(), result, now, s) && longer.states[0] == trace.states[0]
      ensures longer.tasks == trace.tasks + [TlsReports(o), Jobs(o)]
    {
      result, longer := sofar, trace;
      var count; ghost var ids; ghost var before := Data();
      count, ids := PurgeTlsReports(o, now, s);
      longer := Longer(longer, before, TlsReports(o), ids, Data(), result, now, s);
      result, before := Add(result, TlsReports(o), count), Data();
      count, ids := PurgeImportJobs(o, now, s);
      longer := Longer(longer, before, Jobs(o), ids, Data(), result, now, s);
      result := Add(result, Jobs(o), count);
    }

    /** The run does the batches of every organisation in order and then the rest, and counts what they took. */
    method RunRetention(organizations: seq<Organization>, now: int, s: Settings)
      returns (result: Result, ghost trace: Trace)
      modifies this
      ensures Traces(trace, Data(), result, now, s)
      ensures trace.states[0] == old(Data()) && trace.tasks == Tasks(organizations)
    {
      result, trace := Result(0, 0, 0, 0, 0, 0, 0, 0), Trace([Data()], [], []);
      for i := 0 to |organizations|
        invariant Traces(trace, Data(), result, now, s)
        invariant trace.states[0] == old(Data()) && trace.tasks == OrganizationTasks(organizations[..i])
      {
        assert organizations[..i + 1][..i] == organizations[..i];
        result, trace := PurgeOrganization(organizations[i], now, s, trace, result);
      }
      assert organizations[..|organizations|] == organizations;
      result, trace := PurgeRest(now, s, trace, result);
    }

    method PurgeRest(now: int, s: Settings, ghost trace: Trace, sofar: Result)
      returns (result: Result, ghost longer: Trace)
      requires Traces(trace, Data(), sofar, now, s)
      modifies this
      ensures Traces(longer, Data(), result, now, s) && longer.states[0] == trace.states[0]
      ensures longer.tasks == trace.tasks + [RawMails, Rejections, Logins]
    {
      result, longer := sofar, trace;
      var count; ghost var ids; ghost var before := Data();
      count, ids := PurgeRawMails(now, s);
      longer := Longer(longer, before, RawMails, ids, Data(), result, now, s);
      result, before := Add(result, RawMails, count), Data();
      count, ids := PurgeRejections(now, s);
      longer := Longer(longer, before, Rejections, ids, Data(), result, now, s);
      result, before := Add(result, Rejections, count), Data();
      count, ids := PurgeLoginAttempts(now, s);
      longer := Longer(longer, before, Logins, ids, Data(), result, now, s);
      result := Add(result, Logins, count);
    }
  }

  // Batches ---------------------------------------------------------------------------------------------------

  /** No row that could have been taken is older than one that was. */
  predicate IsOldest(t: Tables, task: Task, ids: set<nat>, now: int, s: Settings) {
    && ids <= RetentionRuns.Ids(t, task)
    && forall a, b :: a in ids && b in Eligible(t, task, now, s) && b in RetentionRuns.Ids(t, task) && b !in ids ==>
         RetentionRuns.Stamp(t, task, a).1 <= RetentionRuns.Stamp(t, task, b).1
  }

  lemma OldestOf(t: Tables, task: Task, times: map<nat, int>, ids: set<nat>, now: int, s: Settings)
    requires times.Keys == Eligible(t, task, now, s)
    requires forall k :: k in times ==> k in RetentionRuns.Ids(t, task) && times[k] == RetentionRuns.Stamp(t, task, k).1
    requires ids <= times.Keys && OldestFirst(times, ids)
    ensures IsOldest(t, task, ids, now, s)
  {
  }

  lemma FreeJobs(t: Tables, named: set<nat>)
    requires named == set r | r in t.reports && t.reports[r].job.Some? :: t.reports[r].job.value
    ensures forall k :: Unreferred(t, k) <==> k !in named
  {
  }

  lemma NoneTaken(t: Tables, task: Task)
    ensures Without(t, Took(task, {})) == t
  {
    RetentionRuns.WithoutNothing(t);
  }

  // What each removal leaves of the tables -----------------------------------------------------------------------

  lemma ReportsTaken(t: Tables, ids: set<nat>)
    ensures Without(t, Nothing().(reports := ids))
         == t.(reports := t.reports - ids, records := RecordsWithout(t, ids), results := ResultsWithout(t, ids),
               events := EventsWithout(t, ids, {}))
  {
    RetentionRuns.NothingReports(t);
    RetentionRuns.NothingMails(t);
    NoLogs(t);
  }

  lemma TlsReportsTaken(t: Tables, ids: set<nat>)
    ensures Without(t, Nothing().(tlsReports := ids))
         == t.(tlsReports := TlsReportsWithout(t, ids, {}), policies := PoliciesWithout(t, ids),
               failures := FailuresWithout(t, ids))
  {
    RetentionRuns.NothingReports(t);
    RetentionRuns.NothingMails(t);
    NoLogs(t);
  }

  lemma FailureReportsTaken(t: Tables, ids: set<nat>)
    ensures Without(t, Nothing().(failureReports := ids)) == t.(failureReports := FailureReportsWithout(t, ids, {}))
  {
    RetentionRuns.NothingReports(t);
    RetentionRuns.NothingMails(t);
    NoLogs(t);
  }

  lemma JobsTaken(t: Tables, ids: set<nat>)
    ensures Without(t, Nothing().(jobs := ids))
         == t.(jobs := JobsWithout(t, ids, {}), errors := ErrorsWithout(t, ids),
               attachments := AttachmentsWithout(t, {}, ids))
  {
    RetentionRuns.NothingReports(t);
    RetentionRuns.NothingMails(t);
    NoLogs(t);
  }

  lemma MessagesTaken(t: Tables, ids: set<nat>)
    ensures Without(t, Nothing().(messages := ids))
         == t.(jobs := JobsWithout(t, {}, ids), events := EventsWithout(t, {}, ids),
               failureReports := FailureReportsWithout(t, {}, ids), tlsReports := TlsReportsWithout(t, {}, ids),
               attachments := AttachmentsWithout(t, ids, {}), messages := MessagesWithout(t, ids, {}))
  {
    RetentionRuns.NothingReports(t);
    RetentionRuns.NothingMails(t);
    NoLogs(t);
  }

  lemma RawsTaken(t: Tables, ids: set<nat>)
    ensures Without(t, Nothing().(raws := ids)) == t.(messages := MessagesWithout(t, {}, ids))
  {
    RetentionRuns.NothingReports(t);
    RetentionRuns.NothingMails(t);
    NoLogs(t);
  }

  /** Without any of the other rows the tables stay but for what is logged. */
  lemma LogsTaken(t: Tables, g: Gone)
    requires g == Nothing().(rejections := g.rejections, logins := g.logins)
    ensures Without(t, g) == t.(rejections := t.rejections - g.rejections, logins := t.logins - g.logins)
  {
    RetentionRuns.NothingReports(t);
    RetentionRuns.NothingMails(t);
    NoLogs(t);
  }

  lemma RejectionsTaken(t: Tables, ids: set<nat>)
    ensures Without(t, Took(Rejections, ids)) == t.(rejections := t.rejections - ids)
  {
    LogsTaken(t, Took(Rejections, ids));
    NoLogs(t);
  }

  lemma LoginsTaken(t: Tables, ids: set<nat>)
    ensures Without(t, Took(Logins, ids)) == t.(logins := t.logins - ids)
  {
    LogsTaken(t, Took(Logins, ids));
    NoLogs(t);
  }

  lemma NoLogs(t: Tables)
    ensures t.rejections - {} == t.rejections && t.logins - {} == t.logins && t.reports - {} == t.reports
  {
  }

  // The trace of a run --------------------------------------------------------------------------------------------

  datatype Trace = Trace(states: seq<Tables>, tasks: seq<Task>, picks: seq<set<nat>>)

  datatype Result = Result(reports: nat, failureReports: nat, tlsReports: nat, jobs: nat, messages: nat, raws: nat,
                           rejections: nat, logins: nat)

  function Add(r: Result, task: Task, n: nat): Result {
    match task
    case Reports(_) => r.(reports := r.reports + n)
    case FailureReports(_) => r.(failureReports := r.failureReports + n)
    case TlsReports(_) => r.(tlsReports := r.tlsReports + n)
    case Jobs(_) => r.(jobs := r.jobs + n)
    case Messages(_) => r.(messages := r.messages + n)
    case RawMails => r.(raws := r.raws + n)
    case Rejections => r.(rejections := r.rejections + n)
    case Logins => r.(logins := r.logins + n)
  }

  /** How many rows all tasks together took, per kind. */
  ghost function Tally(tasks: seq<Task>, picks: seq<set<nat>>): Result
    requires |tasks| == |picks|
  {
    if tasks == [] then Result(0, 0, 0, 0, 0, 0, 0, 0)
    else
      var n := |tasks| - 1;
      Add(Tally(tasks[..n], picks[..n]), tasks[n], |picks[n]|)
  }

  ghost predicate Traces(trace: Trace, end: Tables, result: Result, now: int, s: Settings) {
    && IsRun(trace.states, trace.tasks, trace.picks, now, s)
    && trace.states[|trace.tasks|] == end
    && result == Tally(trace.tasks, trace.picks)
  }

  lemma Longer(trace: Trace, current: Tables, task: Task, ids: set<nat>, next: Tables, result: Result, now: int,
               s: Settings)
    returns (longer: Trace)
    requires Traces(trace, current, result, now, s) && Moves(current, task, ids, next, now, s)
    ensures Traces(longer, next, Add(result, task, |ids|), now, s) && longer.states[0] == trace.states[0]
    ensures longer.tasks == trace.tasks + [task]
  {
    longer := Trace(trace.states + [next], trace.tasks + [task], trace.picks + [ids]);
    var n := |trace.tasks|;
    assert longer.tasks[..n] == trace.tasks && longer.picks[..n] == trace.picks;
    forall i: nat | i < n + 1 ensures MovesAt(longer.states, longer.tasks, longer.picks, now, s, i) {
      if i < n {
        assert MovesAt(trace.states, trace.tasks, trace.picks, now, s, i);
      }
    }
  }
}
