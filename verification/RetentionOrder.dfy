/** The statements of one batch in their order: the database is whole after each of them. */
module RetentionOrder {
  import opened Wrappers
  import opened Retention
  import opened RetentionRuns

  // The tables after each statement ----------------------------------------------------------------------------

  function ReportMoments(t: Tables, gone: set<nat>): seq<Tables> {
    var a := t.(results := ResultsWithout(t, gone));
    var b := a.(records := RecordsWithout(a, gone));
    var c := b.(events := EventsWithout(b, gone, {}));
    [a, b, c, c.(reports := c.reports - gone)]
  }

  function TlsReportMoments(t: Tables, gone: set<nat>): seq<Tables> {
    var a := t.(failures := FailuresWithout(t, gone));
    var b := a.(policies := PoliciesWithout(a, gone));
    [a, b, b.(tlsReports := TlsReportsWithout(b, gone, {}))]
  }

  function JobMoments(t: Tables, gone: set<nat>): seq<Tables> {
    var a := t.(attachments := AttachmentsWithout(t, {}, gone));
    var b := a.(errors := ErrorsWithout(a, gone));
    [a, b, b.(jobs := JobsWithout(b, gone, {}))]
  }

  function MentionMoments(t: Tables, gone: set<nat>): (moments: seq<Tables>)
    ensures |moments| == 4
  {
    var a := t.(jobs := JobsWithout(t, {}, gone));
    var b := a.(events := EventsWithout(a, {}, gone));
    var c := b.(failureReports := FailureReportsWithout(b, {}, gone));
    [a, b, c, c.(tlsReports := TlsReportsWithout(c, {}, gone))]
  }

  function MailMoments(t: Tables, gone: set<nat>): seq<Tables> {
    var a := t.(attachments := AttachmentsWithout(t, gone, {}));
    [a, a.(messages := MessagesWithout(a, gone, {}))]
  }

  function MessageMoments(t: Tables, gone: set<nat>): seq<Tables> {
    MentionMoments(t, gone) + MailMoments(MentionMoments(t, gone)[3], gone)
  }

  /** The other tasks are one statement each. */
  function Moments(t: Tables, task: Task, ids: set<nat>): seq<Tables> {
    match task
    case Reports(_) => ReportMoments(t, ids)
    case TlsReports(_) => TlsReportMoments(t, ids)
    case Jobs(_) => JobMoments(t, ids)
    case Messages(_) => MessageMoments(t, ids)
    case _ => [Without(t, Took(task, ids))]
  }

  // Rows that nothing else names ---------------------------------------------------------------------------------

  predicate Names(ref: Option<nat>, gone: set<nat>) { ref.Some? && ref.value in gone }

  predicate ReportsUnnamed(t: Tables, gone: set<nat>) {
    && (forall k :: k in t.records ==> t.records[k].report !in gone)
    && (forall k :: k in t.events ==> !Names(t.events[k].report, gone))
  }

  predicate RecordsUnnamed(t: Tables, gone: set<nat>) {
    forall k :: k in t.results ==> !OfReports(t, t.results[k].record, gone)
  }

  predicate TlsReportsUnnamed(t: Tables, gone: set<nat>) {
    forall k :: k in t.policies ==> t.policies[k].report !in gone
  }

  predicate PoliciesUnnamed(t: Tables, gone: set<nat>) {
    forall k :: k in t.failures ==> !OfTlsReports(t, t.failures[k].policy, gone)
  }

  predicate JobsUnnamed(t: Tables, gone: set<nat>) {
    && (forall k :: k in t.errors ==> t.errors[k].job !in gone)
    && (forall k :: k in t.attachments ==> !Names(t.attachments[k].job, gone))
    && (forall k :: k in t.reports ==> !Names(t.reports[k].job, gone))
  }

  predicate MessagesUnnamed(t: Tables, gone: set<nat>) {
    && NoAttachments(t.attachments, gone) && NoJobs(t.jobs, gone) && NoEvents(t.events, gone)
    && NoFailureReports(t.failureReports, gone) && NoTlsReports(t.tlsReports, gone)
  }

  predicate NoAttachments(attachments: map<nat, Attachment>, messages: set<nat>) {
    forall k :: k in attachments ==> attachments[k].message !in messages
  }

  predicate NoJobs(jobs: map<nat, Job>, messages: set<nat>) {
    forall k :: k in jobs ==> !Names(jobs[k].message, messages)
  }

  predicate NoEvents(events: map<nat, Event>, messages: set<nat>) {
    forall k :: k in events ==> !Names(events[k].message, messages)
  }

  predicate NoFailureReports(failureReports: map<nat, FailureReport>, messages: set<nat>) {
    forall k :: k in failureReports ==> !Names(failureReports[k].message, messages)
  }

  predicate NoTlsReports(tlsReports: map<nat, TlsReport>, messages: set<nat>) {
    forall k :: k in tlsReports ==> !Names(tlsReports[k].message, messages)
  }

  // Deleting rows that others may name: all keys resolve afterwards exactly when none does ------------------------

  lemma ReportsDeleted(t: Tables, next: Tables, gone: set<nat>)
    requires Integrity(t) && next == t.(reports := t.reports - gone)
    ensures Integrity(next) <==> ReportsUnnamed(t, gone)
  {
  }

  lemma RecordsDeleted(t: Tables, next: Tables, gone: set<nat>)
    requires Integrity(t) && next == t.(records := RecordsWithout(t, gone))
    ensures Integrity(next) <==> RecordsUnnamed(t, gone)
  {
  }

  lemma TlsReportsDeleted(t: Tables, next: Tables, gone: set<nat>)
    requires Integrity(t) && next == t.(tlsReports := TlsReportsWithout(t, gone, {}))
    ensures Integrity(next) <==> TlsReportsUnnamed(t, gone)
  {
    assert next.tlsReports.Keys == t.tlsReports.Keys - gone;
  }

  lemma PoliciesDeleted(t: Tables, next: Tables, gone: set<nat>)
    requires Integrity(t) && next == t.(policies := PoliciesWithout(t, gone))
    ensures Integrity(next) <==> PoliciesUnnamed(t, gone)
  {
  }

  lemma JobsDeleted(t: Tables, next: Tables, gone: set<nat>)
    requires Integrity(t) && next == t.(jobs := JobsWithout(t, gone, {}))
    ensures Integrity(next) <==> JobsUnnamed(t, gone)
  {
    assert next.jobs.Keys == t.jobs.Keys - gone;
  }

  lemma MessagesDeleted(t: Tables, next: Tables, gone: set<nat>)
    requires Integrity(t) && next == t.(messages := MessagesWithout(t, gone, {}))
    ensures Integrity(next) <==> MessagesUnnamed(t, gone)
  {
    assert next.messages.Keys == t.messages.Keys - gone;
  }

  // Clearing mentions and deleting rows nothing names always leaves the keys resolvable ---------------------------

  lemma ResultsDeleted(t: Tables, next: Tables, gone: set<nat>)
    requires Integrity(t) && next == t.(results := ResultsWithout(t, gone))
    ensures Integrity(next) && RecordsUnnamed(next, gone)
  {
  }

  lemma EventsCleared(t: Tables, next: Tables, reports: set<nat>, messages: set<nat>)
    requires Integrity(t) && next == t.(events := EventsWithout(t, reports, messages))
    ensures Integrity(next)
    ensures NoEvents(next.events, messages)
    ensures forall k :: k in next.events ==> !Names(next.events[k].report, reports)
  {
  }

  lemma FailuresDeleted(t: Tables, next: Tables, gone: set<nat>)
    requires Integrity(t) && next == t.(failures := FailuresWithout(t, gone))
    ensures Integrity(next) && PoliciesUnnamed(next, gone)
  {
  }

  lemma ErrorsDeleted(t: Tables, next: Tables, gone: set<nat>)
    requires Integrity(t) && next == t.(errors := ErrorsWithout(t, gone))
    ensures Integrity(next) && forall k :: k in next.errors ==> next.errors[k].job !in gone
  {
  }

  lemma AttachmentsTaken(t: Tables, next: Tables, messages: set<nat>, jobs: set<nat>)
    requires Integrity(t) && next == t.(attachments := AttachmentsWithout(t, messages, jobs))
    ensures Integrity(next)
    ensures NoAttachments(next.attachments, messages)
    ensures forall k :: k in next.attachments ==> !Names(next.attachments[k].job, jobs)
  {
  }

  lemma JobsCleared(t: Tables, next: Tables, messages: set<nat>)
    requires Integrity(t) && next == t.(jobs := JobsWithout(t, {}, messages))
    ensures Integrity(next) && NoJobs(next.jobs, messages)
  {
    assert next.jobs.Keys == t.jobs.Keys;
  }

  lemma FailureReportsCleared(t: Tables, next: Tables, messages: set<nat>)
    requires Integrity(t) && next == t.(failureReports := FailureReportsWithout(t, {}, messages))
    ensures Integrity(next) && NoFailureReports(next.failureReports, messages)
  {
  }

  lemma TlsReportsCleared(t: Tables, next: Tables, messages: set<nat>)
    requires Integrity(t) && next == t.(tlsReports := TlsReportsWithout(t, {}, messages))
    ensures Integrity(next) && NoTlsReports(next.tlsReports, messages)
  {
    assert next.tlsReports.Keys == t.tlsReports.Keys;
  }

  // The batches -------------------------------------------------------------------------------------------------

  predicate AllWhole(moments: seq<Tables>) {
    forall i :: 0 <= i < |moments| ==> Integrity(moments[i])
  }

  lemma ReportsWhole(t: Tables, gone: set<nat>)
    requires Integrity(t)
    ensures AllWhole(ReportMoments(t, gone))
  {
    var m := ReportMoments(t, gone);
    ResultsDeleted(t, m[0], gone);
    RecordsDeleted(m[0], m[1], gone);
    EventsCleared(m[1], m[2], gone, {});
    ReportsDeleted(m[2], m[3], gone);
  }

  lemma TlsReportsWhole(t: Tables, gone: set<nat>)
    requires Integrity(t)
    ensures AllWhole(TlsReportMoments(t, gone))
  {
    var m := TlsReportMoments(t, gone);
    FailuresDeleted(t, m[0], gone);
    PoliciesDeleted(m[0], m[1], gone);
    TlsReportsDeleted(m[1], m[2], gone);
  }

  lemma JobsWhole(t: Tables, gone: set<nat>)
    requires Integrity(t) && forall k :: k in t.reports ==> !Names(t.reports[k].job, gone)
    ensures AllWhole(JobMoments(t, gone))
  {
    var m := JobMoments(t, gone);
    AttachmentsTaken(t, m[0], {}, gone);
    ErrorsDeleted(m[0], m[1], gone);
    JobsDeleted(m[1], m[2], gone);
  }

  lemma MentionsWhole(t: Tables, gone: set<nat>)
    requires Integrity(t)
    ensures AllWhole(MentionMoments(t, gone))
    ensures var last := MentionMoments(t, gone)[3];
            NoJobs(last.jobs, gone) && NoEvents(last.events, gone) && NoFailureReports(last.failureReports, gone)
            && NoTlsReports(last.tlsReports, gone)
  {
    var m := MentionMoments(t, gone);
    JobsCleared(t, m[0], gone);
    EventsCleared(m[0], m[1], {}, gone);
    FailureReportsCleared(m[1], m[2], gone);
    TlsReportsCleared(m[2], m[3], gone);
  }

  lemma MailsWhole(t: Tables, gone: set<nat>)
    requires Integrity(t) && NoJobs(t.jobs, gone) && NoEvents(t.events, gone)
    requires NoFailureReports(t.failureReports, gone) && NoTlsReports(t.tlsReports, gone)
    ensures AllWhole(MailMoments(t, gone))
  {
    var m := MailMoments(t, gone);
    AttachmentsTaken(t, m[0], gone, {});
    MessagesDeleted(m[0], m[1], gone);
  }

  lemma MessagesWhole(t: Tables, gone: set<nat>)
    requires Integrity(t)
    ensures AllWhole(MessageMoments(t, gone))
  {
    MentionsWhole(t, gone);
    MailsWhole(MentionMoments(t, gone)[3], gone);
  }

  /** After every statement of every run all keys resolve. */
  lemma StatementsKeepIntegrity(states: seq<Tables>, tasks: seq<Task>, picks: seq<set<nat>>, now: int, s: Settings,
                                i: nat)
    requires IsRun(states, tasks, picks, now, s) && Integrity(states[0]) && i < |tasks|
    ensures AllWhole(Moments(states[i], tasks[i], picks[i]))
  {
    RunKeepsIntegrity(states, tasks, picks, now, s, i);
    RunKeepsIntegrity(states, tasks, picks, now, s, i + 1);
    RunMoves(states, tasks, picks, now, s, i);
    match tasks[i]
    case Reports(_) => ReportsWhole(states[i], picks[i]);
    case TlsReports(_) => TlsReportsWhole(states[i], picks[i]);
    case Jobs(_) =>
      TakenFree(states[i], tasks[i], picks[i], now, s);
      JobsWhole(states[i], picks[i]);
    case Messages(_) => MessagesWhole(states[i], picks[i]);
    case _ =>
  }
}
