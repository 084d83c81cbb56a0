/** Removing old data over many tables: what one statement batch takes out, and what goes with it. */
module Retention {
  import opened Wrappers

  datatype Report = Report(organization: nat, job: Option<nat>, created: int)
  datatype Record = Record(report: nat)
  datatype AuthResult = AuthResult(record: nat)
  datatype Event = Event(report: Option<nat>, message: Option<nat>)
  datatype Job = Job(organization: nat, message: Option<nat>, created: int)
  datatype JobError = JobError(job: nat)
  datatype Message = Message(organization: nat, raw: Option<string>, received: int)
  datatype Attachment = Attachment(message: nat, job: Option<nat>)
  datatype FailureReport = FailureReport(organization: nat, message: Option<nat>, created: int)
  datatype TlsReport = TlsReport(organization: nat, message: Option<nat>, created: int)
  datatype Policy = Policy(report: nat)
  datatype Failure = Failure(policy: nat)
  datatype Logged = Logged(created: int)

  /** Every table by primary key. */
  datatype Tables = Tables(
    reports: map<nat, Report>, records: map<nat, Record>, results: map<nat, AuthResult>, events: map<nat, Event>,
    jobs: map<nat, Job>, errors: map<nat, JobError>, messages: map<nat, Message>, attachments: map<nat, Attachment>,
    failureReports: map<nat, FailureReport>, tlsReports: map<nat, TlsReport>, policies: map<nat, Policy>,
    failures: map<nat, Failure>, rejections: map<nat, Logged>, logins: map<nat, Logged>)

  predicate Resolves<V>(ref: Option<nat>, rows: map<nat, V>) {
    ref.Some? ==> ref.value in rows
  }

  predicate ReportKeys(t: Tables) { forall k :: k in t.reports ==> Resolves(t.reports[k].job, t.jobs) }
  predicate RecordKeys(t: Tables) { forall k :: k in t.records ==> t.records[k].report in t.reports }
  predicate ResultKeys(t: Tables) { forall k :: k in t.results ==> t.results[k].record in t.records }
  predicate EventKeys(t: Tables) {
    forall k :: k in t.events ==> Resolves(t.events[k].report, t.reports) && Resolves(t.events[k].message, t.messages)
  }
  predicate JobKeys(t: Tables) { forall k :: k in t.jobs ==> Resolves(t.jobs[k].message, t.messages) }
  predicate ErrorKeys(t: Tables) { forall k :: k in t.errors ==> t.errors[k].job in t.jobs }
  predicate AttachmentKeys(t: Tables) {
    forall k :: k in t.attachments ==> t.attachments[k].message in t.messages && Resolves(t.attachments[k].job, t.jobs)
  }
  predicate FailureReportKeys(t: Tables) {
    forall k :: k in t.failureReports ==> Resolves(t.failureReports[k].message, t.messages)
  }
  predicate TlsReportKeys(t: Tables) {
    forall k :: k in t.tlsReports ==> Resolves(t.tlsReports[k].message, t.messages)
  }
  predicate PolicyKeys(t: Tables) { forall k :: k in t.policies ==> t.policies[k].report in t.tlsReports }
  predicate FailureKeys(t: Tables) { forall k :: k in t.failures ==> t.failures[k].policy in t.policies }

  /** Every foreign key names a row that exists. */
  predicate Integrity(t: Tables) {
    && ReportKeys(t) && RecordKeys(t) && ResultKeys(t) && EventKeys(t) && JobKeys(t) && ErrorKeys(t)
    && AttachmentKeys(t) && FailureReportKeys(t) && TlsReportKeys(t) && PolicyKeys(t) && FailureKeys(t)
  }

  // What goes with a set of rows ----------------------------------------------------------------------------

  /** The reports, jobs, mails and so on taken out, and the mails that only lose their stored raw text. */
  datatype Gone = Gone(reports: set<nat>, failureReports: set<nat>, tlsReports: set<nat>, jobs: set<nat>,
                       messages: set<nat>, raws: set<nat>, rejections: set<nat>, logins: set<nat>)

  function Nothing(): Gone { Gone({}, {}, {}, {}, {}, {}, {}, {}) }

  function Cleared(ref: Option<nat>, gone: set<nat>): Option<nat> {
    if ref.Some? && ref.value in gone then None else ref
  }

  function RecordsWithout(t: Tables, reports: set<nat>): map<nat, Record> {
    map k | k in t.records && t.records[k].report !in reports :: t.records[k]
  }

  predicate OfReports(t: Tables, record: nat, reports: set<nat>) {
    record in t.records && t.records[record].report in reports
  }

  function ResultsWithout(t: Tables, reports: set<nat>): map<nat, AuthResult> {
    map k | k in t.results && !OfReports(t, t.results[k].record, reports) :: t.results[k]
  }

  function EventsWithout(t: Tables, reports: set<nat>, messages: set<nat>): map<nat, Event> {
    map k | k in t.events :: Event(Cleared(t.events[k].report, reports), Cleared(t.events[k].message, messages))
  }

  function JobsWithout(t: Tables, jobs: set<nat>, messages: set<nat>): map<nat, Job> {
    map k | k in t.jobs && k !in jobs :: t.jobs[k].(message := Cleared(t.jobs[k].message, messages))
  }

  function ErrorsWithout(t: Tables, jobs: set<nat>): map<nat, JobError> {
    map k | k in t.errors && t.errors[k].job !in jobs :: t.errors[k]
  }

  function MessagesWithout(t: Tables, messages: set<nat>, raws: set<nat>): map<nat, Message> {
    map k | k in t.messages && k !in messages ::
      if k in raws then t.messages[k].(raw := None) else t.messages[k]
  }

  function AttachmentsWithout(t: Tables, messages: set<nat>, jobs: set<nat>): map<nat, Attachment> {
    map k | k in t.attachments && t.attachments[k].message !in messages ::
      t.attachments[k].(job := Cleared(t.attachments[k].job, jobs))
  }

  function FailureReportsWithout(t: Tables, failureReports: set<nat>, messages: set<nat>): map<nat, FailureReport> {
    map k | k in t.failureReports && k !in failureReports ::
      t.failureReports[k].(message := Cleared(t.failureReports[k].message, messages))
  }

  function TlsReportsWithout(t: Tables, tlsReports: set<nat>, messages: set<nat>): map<nat, TlsReport> {
    map k | k in t.tlsReports && k !in tlsReports ::
      t.tlsReports[k].(message := Cleared(t.tlsReports[k].message, messages))
  }

  function PoliciesWithout(t: Tables, tlsReports: set<nat>): map<nat, Policy> {
    map k | k in t.policies && t.policies[k].report !in tlsReports :: t.policies[k]
  }

  predicate OfTlsReports(t: Tables, policy: nat, tlsReports: set<nat>) {
    policy in t.policies && t.policies[policy].report in tlsReports
  }

  function FailuresWithout(t: Tables, tlsReports: set<nat>): map<nat, Failure> {
    map k | k in t.failures && !OfTlsReports(t, t.failures[k].policy, tlsReports) :: t.failures[k]
  }

  /** The tables without some rows, everything that belongs to them, and every mention of them. */
  function Without(t: Tables, g: Gone): Tables {
    Tables(t.reports - g.reports, RecordsWithout(t, g.reports), ResultsWithout(t, g.reports),
           EventsWithout(t, g.reports, g.messages), JobsWithout(t, g.jobs, g.messages), ErrorsWithout(t, g.jobs),
           MessagesWithout(t, g.messages, g.raws), AttachmentsWithout(t, g.messages, g.jobs),
           FailureReportsWithout(t, g.failureReports, g.messages), TlsReportsWithout(t, g.tlsReports, g.messages),
           PoliciesWithout(t, g.tlsReports), FailuresWithout(t, g.tlsReports),
           t.rejections - g.rejections, t.logins - g.logins)
  }

  // The tasks of a run ---------------------------------------------------------------------------------------

  const DAY := 86400

  datatype Organization = Organization(id: nat, days: nat)
  datatype Settings = Settings(limit: nat, failureDays: nat, rawDays: nat, rejectionDays: nat, loginDays: nat)

  /** One batch of a run; those of an organisation carry it. */
  datatype Task =
    | Reports(of: Organization)
    | FailureReports(of: Organization)
    | TlsReports(of: Organization)
    | Jobs(of: Organization)
    | Messages(of: Organization)
    | RawMails
    | Rejections
    | Logins

  function Cutoff(task: Task, now: int, s: Settings): int {
    match task
    case FailureReports(o) => now - DAY * if o.days <= s.failureDays then o.days else s.failureDays
    case RawMails => now - DAY * s.rawDays
    case Rejections => now - DAY * s.rejectionDays
    case Logins => now - DAY * s.loginDays
    case _ => now - DAY * task.of.days
  }

  predicate Unreferred(t: Tables, job: nat) {
    forall r :: r in t.reports ==> t.reports[r].job != Some(job)
  }

  function Eligible(t: Tables, task: Task, now: int, s: Settings): set<nat> {
    var cutoff := Cutoff(task, now, s);
    match task
    case Reports(o) => set k | k in t.reports && t.reports[k].organization == o.id && t.reports[k].created < cutoff
    case FailureReports(o) =>
      set k | k in t.failureReports && t.failureReports[k].organization == o.id && t.failureReports[k].created < cutoff
    case TlsReports(o) =>
      set k | k in t.tlsReports && t.tlsReports[k].organization == o.id && t.tlsReports[k].created < cutoff
    case Jobs(o) =>
      set k | k in t.jobs && t.jobs[k].organization == o.id && t.jobs[k].created < cutoff && Unreferred(t, k)
    case Messages(o) =>
      set k | k in t.messages && t.messages[k].organization == o.id && t.messages[k].received < cutoff
    case RawMails => set k | k in t.messages && t.messages[k].raw.Some? && t.messages[k].received < cutoff
    case Rejections => set k | k in t.rejections && t.rejections[k].created < cutoff
    case Logins => set k | k in t.logins && t.logins[k].created < cutoff
  }

  function Took(task: Task, ids: set<nat>): Gone {
    match task
    case Reports(_) => Nothing().(reports := ids)
    case FailureReports(_) => Nothing().(failureReports := ids)
    case TlsReports(_) => Nothing().(tlsReports := ids)
    case Jobs(_) => Nothing().(jobs := ids)
    case Messages(_) => Nothing().(messages := ids)
    case RawMails => Nothing().(raws := ids)
    case Rejections => Nothing().(rejections := ids)
    case Logins => Nothing().(logins := ids)
  }

  function Min(a: nat, b: nat): nat { if a <= b then a else b }

  /** A query with a limit gives that many of the rows asked for, or all; nothing is said about which. */
  predicate IsBatch(ids: set<nat>, eligible: set<nat>, limit: nat) {
    ids <= eligible && |ids| == Min(limit, |eligible|)
  }

  predicate Allowed(t: Tables, task: Task, ids: set<nat>, now: int, s: Settings) {
    if task.Rejections? || task.Logins? then ids == Eligible(t, task, now, s)
    else IsBatch(ids, Eligible(t, task, now, s), s.limit)
  }

  function TasksOf(o: Organization): seq<Task> {
    [Reports(o), FailureReports(o), TlsReports(o), Jobs(o), Messages(o)]
  }

  /** The organisations one after the other, then what belongs to none. */
  function Tasks(organizations: seq<Organization>): seq<Task> {
    OrganizationTasks(organizations) + [RawMails, Rejections, Logins]
  }

  function OrganizationTasks(organizations: seq<Organization>): seq<Task> {
    if organizations == [] then []
    else OrganizationTasks(organizations[..|organizations| - 1]) + TasksOf(organizations[|organizations| - 1])
  }

  /** states[i] is before task i; any batch the queries may give. */
  predicate IsRun(states: seq<Tables>, tasks: seq<Task>, picks: seq<set<nat>>, now: int, s: Settings) {
    && |states| == |tasks| + 1 && |picks| == |tasks|
    && forall i: nat :: i < |tasks| ==> MovesAt(states, tasks, picks, now, s, i)
  }

  predicate MovesAt(states: seq<Tables>, tasks: seq<Task>, picks: seq<set<nat>>, now: int, s: Settings, i: nat)
    requires |states| == |tasks| + 1 && |picks| == |tasks| && i < |tasks|
  {
    Moves(states[i], tasks[i], picks[i], states[i + 1], now, s)
  }

  predicate Moves(t: Tables, task: Task, ids: set<nat>, next: Tables, now: int, s: Settings) {
    Allowed(t, task, ids, now, s) && next == Without(t, Took(task, ids))
  }
}
