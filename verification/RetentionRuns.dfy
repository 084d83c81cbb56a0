/** What removing old data never damages, never takes too early or too much of, and when it is done. */
module RetentionRuns {
  import opened Wrappers
  import opened Retention

  // Integrity -------------------------------------------------------------------------------------------

  /** No job is taken out while a report that stays names it. */
  predicate JobsFree(t: Tables, g: Gone) {
    forall r :: r in t.reports && r !in g.reports ==> Cleared(t.reports[r].job, g.jobs) == t.reports[r].job
  }

  lemma MessagesStay(t: Tables, g: Gone)
    ensures Without(t, g).messages.Keys == t.messages.Keys - g.messages
    ensures Without(t, g).jobs.Keys == t.jobs.Keys - g.jobs
    ensures Without(t, g).tlsReports.Keys == t.tlsReports.Keys - g.tlsReports
  {
  }

  lemma ClearedResolves<V>(ref: Option<nat>, gone: set<nat>, rows: map<nat, V>, left: map<nat, V>)
    requires Resolves(ref, rows) && left.Keys == rows.Keys - gone
    ensures Resolves(Cleared(ref, gone), left)
  {
  }

  lemma ReportsKept(t: Tables, g: Gone)
    requires ReportKeys(t)
    ensures ReportKeys(Without(t, g)) <==> JobsFree(t, g)
  {
    var next := Without(t, g);
    MessagesStay(t, g);
    if ReportKeys(next) {
      forall r | r in t.reports && r !in g.reports ensures Cleared(t.reports[r].job, g.jobs) == t.reports[r].job {
        assert r in next.reports;
      }
    }
    if JobsFree(t, g) {
      forall k | k in next.reports ensures Resolves(next.reports[k].job, next.jobs) {
        assert Cleared(t.reports[k].job, g.jobs) == t.reports[k].job;
      }
    }
  }

  lemma RecordsKept(t: Tables, g: Gone)
    requires RecordKeys(t)
    ensures RecordKeys(Without(t, g))
  {
  }

  lemma ResultsKept(t: Tables, g: Gone)
    requires ResultKeys(t)
    ensures ResultKeys(Without(t, g))
  {
  }

  lemma EventsKept(t: Tables, g: Gone)
    requires EventKeys(t)
    ensures EventKeys(Without(t, g))
  {
    MessagesStay(t, g);
    var next := Without(t, g);
    forall k | k in next.events
      ensures Resolves(next.events[k].report, next.reports) && Resolves(next.events[k].message, next.messages)
    {
      ClearedResolves(t.events[k].report, g.reports, t.reports, next.reports);
      ClearedResolves(t.events[k].message, g.messages, t.messages, next.messages);
    }
  }

  lemma JobsKept(t: Tables, g: Gone)
    requires JobKeys(t) && ErrorKeys(t)
    ensures JobKeys(Without(t, g)) && ErrorKeys(Without(t, g))
  {
    MessagesStay(t, g);
  }

  lemma MailsKept(t: Tables, g: Gone)
    requires AttachmentKeys(t) && FailureReportKeys(t) && TlsReportKeys(t)
    ensures AttachmentKeys(Without(t, g)) && FailureReportKeys(Without(t, g)) && TlsReportKeys(Without(t, g))
  {
    MessagesStay(t, g);
  }

  lemma TlsKept(t: Tables, g: Gone)
    requires PolicyKeys(t) && FailureKeys(t)
    ensures PolicyKeys(Without(t, g)) && FailureKeys(Without(t, g))
  {
    MessagesStay(t, g);
  }

  /** Taking rows out with everything that belongs to them leaves no dangling key exactly when no report that stays
      names a job that goes. */
  lemma WithoutIntegrity(t: Tables, g: Gone)
    requires Integrity(t)
    ensures Integrity(Without(t, g)) <==> JobsFree(t, g)
  {
    ReportsKept(t, g);
    RecordsKept(t, g);
    ResultsKept(t, g);
    EventsKept(t, g);
    JobsKept(t, g);
    MailsKept(t, g);
    TlsKept(t, g);
  }

  lemma TakenFree(t: Tables, task: Task, ids: set<nat>, now: int, s: Settings)
    requires Allowed(t, task, ids, now, s)
    ensures JobsFree(t, Took(task, ids))
  {
    forall r | r in t.reports ensures Cleared(t.reports[r].job, Took(task, ids).jobs) == t.reports[r].job {
      if task.Jobs? && t.reports[r].job.Some? {
        assert !Unreferred(t, t.reports[r].job.value);
      }
    }
  }

  lemma MoveKeepsIntegrity(t: Tables, task: Task, ids: set<nat>, next: Tables, now: int, s: Settings)
    requires Moves(t, task, ids, next, now, s) && Integrity(t)
    ensures Integrity(next)
  {
    TakenFree(t, task, ids, now, s);
    WithoutIntegrity(t, Took(task, ids));
  }

  /** After every task of every run all foreign keys resolve. */
  lemma {:induction false} RunKeepsIntegrity(states: seq<Tables>, tasks: seq<Task>, picks: seq<set<nat>>, now: int,
                                             s: Settings, i: nat)
    requires IsRun(states, tasks, picks, now, s) && Integrity(states[0]) && i <= |tasks|
    ensures Integrity(states[i])
  {
    if i > 0 {
      RunKeepsIntegrity(states, tasks, picks, now, s, i - 1);
      RunMoves(states, tasks, picks, now, s, i - 1);
      MoveKeepsIntegrity(states[i - 1], tasks[i - 1], picks[i - 1], states[i], now, s);
    }
  }

  // A run is one removal ----------------------------------------------------------------------------------

  function Plus(a: Gone, b: Gone): Gone {
    Gone(a.reports + b.reports, a.failureReports + b.failureReports, a.tlsReports + b.tlsReports, a.jobs + b.jobs,
         a.messages + b.messages, a.raws + b.raws, a.rejections + b.rejections, a.logins + b.logins)
  }

  lemma ReportsTwice(t: Tables, a: Gone, b: Gone)
    ensures RecordsWithout(Without(t, a), b.reports) == RecordsWithout(t, Plus(a, b).reports)
  {
  }

  lemma ResultsTwice(t: Tables, a: Gone, b: Gone)
    ensures ResultsWithout(Without(t, a), b.reports) == ResultsWithout(t, Plus(a, b).reports)
  {
    var once, both := ResultsWithout(Without(t, a), b.reports), ResultsWithout(t, Plus(a, b).reports);
    forall k ensures k in once <==> k in both {
      if k in t.results {
        OwnersTwice(t, a, b, t.results[k].record, 0);
      }
    }
    assert once.Keys == both.Keys;
  }

  lemma OwnersTwice(t: Tables, a: Gone, b: Gone, record: nat, policy: nat)
    ensures OfReports(t, record, Plus(a, b).reports)
       <==> (OfReports(t, record, a.reports) || OfReports(Without(t, a), record, b.reports))
    ensures OfTlsReports(t, policy, Plus(a, b).tlsReports)
       <==> (OfTlsReports(t, policy, a.tlsReports) || OfTlsReports(Without(t, a), policy, b.tlsReports))
  {
  }

  lemma PoliciesTwice(t: Tables, a: Gone, b: Gone)
    ensures PoliciesWithout(Without(t, a), b.tlsReports) == PoliciesWithout(t, Plus(a, b).tlsReports)
  {
  }

  lemma FailuresTwice(t: Tables, a: Gone, b: Gone)
    ensures FailuresWithout(Without(t, a), b.tlsReports) == FailuresWithout(t, Plus(a, b).tlsReports)
  {
    var once, both := FailuresWithout(Without(t, a), b.tlsReports), FailuresWithout(t, Plus(a, b).tlsReports);
    forall k ensures k in once <==> k in both {
      if k in t.failures {
        OwnersTwice(t, a, b, 0, t.failures[k].policy);
      }
    }
    assert once.Keys == both.Keys;
  }

  lemma EventsTwice(t: Tables, a: Gone, b: Gone)
    ensures EventsWithout(Without(t, a), b.reports, b.messages)
         == EventsWithout(t, Plus(a, b).reports, Plus(a, b).messages)
  {
  }

  lemma JobsTwice(t: Tables, a: Gone, b: Gone)
    ensures JobsWithout(Without(t, a), b.jobs, b.messages) == JobsWithout(t, Plus(a, b).jobs, Plus(a, b).messages)
    ensures ErrorsWithout(Without(t, a), b.jobs) == ErrorsWithout(t, Plus(a, b).jobs)
  {
  }

  lemma MessagesTwice(t: Tables, a: Gone, b: Gone)
    ensures MessagesWithout(Without(t, a), b.messages, b.raws)
         == MessagesWithout(t, Plus(a, b).messages, Plus(a, b).raws)
  {
  }

  lemma AttachmentsTwice(t: Tables, a: Gone, b: Gone)
    ensures AttachmentsWithout(Without(t, a), b.messages, b.jobs)
         == AttachmentsWithout(t, Plus(a, b).messages, Plus(a, b).jobs)
  {
  }

  lemma MailReportsTwice(t: Tables, a: Gone, b: Gone)
    ensures FailureReportsWithout(Without(t, a), b.failureReports, b.messages)
         == FailureReportsWithout(t, Plus(a, b).failureReports, Plus(a, b).messages)
    ensures TlsReportsWithout(Without(t, a), b.tlsReports, b.messages)
         == TlsReportsWithout(t, Plus(a, b).tlsReports, Plus(a, b).messages)
  {
  }

  lemma WithoutTwice(t: Tables, a: Gone, b: Gone)
    ensures Without(Without(t, a), b) == Without(t, Plus(a, b))
  {
    ReportsTwice(t, a, b);
    ResultsTwice(t, a, b);
    PoliciesTwice(t, a, b);
    FailuresTwice(t, a, b);
    assert Without(t, a).reports - b.reports == t.reports - Plus(a, b).reports;
    EventsTwice(t, a, b);
    JobsTwice(t, a, b);
    MessagesTwice(t, a, b);
    AttachmentsTwice(t, a, b);
    MailReportsTwice(t, a, b);
    assert Without(t, a).rejections - b.rejections == t.rejections - Plus(a, b).rejections;
    assert Without(t, a).logins - b.logins == t.logins - Plus(a, b).logins;
  }

  lemma WithoutNothing(t: Tables)
    ensures Without(t, Nothing()) == t
  {
    var g := Nothing();
    assert t.reports - g.reports == t.reports;
    assert t.rejections - g.rejections == t.rejections && t.logins - g.logins == t.logins;
    NothingReports(t);
    NothingMails(t);
  }

  lemma NothingReports(t: Tables)
    ensures RecordsWithout(t, {}) == t.records && ResultsWithout(t, {}) == t.results
    ensures EventsWithout(t, {}, {}) == t.events && ErrorsWithout(t, {}) == t.errors
    ensures PoliciesWithout(t, {}) == t.policies && FailuresWithout(t, {}) == t.failures
  {
  }

  lemma NothingMails(t: Tables)
    ensures JobsWithout(t, {}, {}) == t.jobs && MessagesWithout(t, {}, {}) == t.messages
    ensures AttachmentsWithout(t, {}, {}) == t.attachments
    ensures FailureReportsWithout(t, {}, {}) == t.failureReports && TlsReportsWithout(t, {}, {}) == t.tlsReports
  {
  }

  lemma RunMoves(states: seq<Tables>, tasks: seq<Task>, picks: seq<set<nat>>, now: int, s: Settings, i: nat)
    requires IsRun(states, tasks, picks, now, s) && i < |tasks|
    ensures states[i + 1] == Without(states[i], Took(tasks[i], picks[i]))
    ensures Allowed(states[i], tasks[i], picks[i], now, s)
  {
    assert MovesAt(states, tasks, picks, now, s, i);
  }

  ghost predicate Removal(t: Tables, next: Tables) {
    exists g :: next == Without(t, g)
  }

  lemma RemovalOf(t: Tables, g: Gone, next: Tables)
    requires next == Without(t, g)
    ensures Removal(t, next)
  {
  }

  lemma RemovalTwice(t: Tables, mid: Tables, next: Tables)
    requires Removal(t, mid) && Removal(mid, next)
    ensures Removal(t, next)
  {
    forall a, b | mid == Without(t, a) && next == Without(mid, b) ensures Removal(t, next) {
      RemovalBoth(t, a, mid, b, next);
    }
  }

  lemma RemovalBoth(t: Tables, a: Gone, mid: Tables, b: Gone, next: Tables)
    requires mid == Without(t, a) && next == Without(mid, b)
    ensures Removal(t, next)
  {
    WithoutTwice(t, a, b);
    RemovalOf(t, Plus(a, b), next);
  }

  lemma {:induction false} Chained<T>(states: seq<T>, related: (T, T) -> bool, i: nat)
    requires i < |states| && related(states[0], states[0])
    requires forall a, b, c :: related(a, b) && related(b, c) ==> related(a, c)
    requires forall k :: 0 <= k < |states| - 1 ==> related(states[k], states[k + 1])
    ensures related(states[0], states[i])
  {
    if i > 0 {
      Chained(states, related, i - 1);
      assert related(states[i - 1], states[i - 1 + 1]);
    }
  }

  /** Whatever the order of the batches: a run takes out some rows, what belongs to them, and every mention of them,
      and leaves all else as it was. */
  lemma RunIsOneRemoval(states: seq<Tables>, tasks: seq<Task>, picks: seq<set<nat>>, now: int, s: Settings, i: nat)
    requires IsRun(states, tasks, picks, now, s) && i <= |tasks|
    ensures Removal(states[0], states[i])
  {
    var related := (a, b) => Removal(a, b);
    WithoutNothing(states[0]);
    RemovalOf(states[0], Nothing(), states[0]);
    forall a, b, c | related(a, b) && related(b, c) ensures related(a, c) {
      RemovalTwice(a, b, c);
    }
    forall k | 0 <= k < |states| - 1 ensures related(states[k], states[k + 1]) {
      RunMoves(states, tasks, picks, now, s, k);
      RemovalOf(states[k], Took(tasks[k], picks[k]), states[k + 1]);
    }
    Chained(states, related, i);
  }

  /** Rows that belong to another go exactly with it, and a mention is cleared exactly when its row is gone. */
  lemma GoesWithOwner(states: seq<Tables>, tasks: seq<Task>, picks: seq<set<nat>>, now: int, s: Settings, k: nat)
    requires IsRun(states, tasks, picks, now, s) && Integrity(states[0])
    ensures var t, end := states[0], states[|tasks|];
            && (k in t.records ==> (k in end.records <==> t.records[k].report in end.reports))
            && (k in t.results ==> (k in end.results <==> t.results[k].record in end.records))
            && (k in t.errors ==> (k in end.errors <==> t.errors[k].job in end.jobs))
            && (k in t.attachments ==> (k in end.attachments <==> t.attachments[k].message in end.messages))
            && (k in t.policies ==> (k in end.policies <==> t.policies[k].report in end.tlsReports))
            && (k in t.failures ==> (k in end.failures <==> t.failures[k].policy in end.policies))
            && (k in t.events ==> k in end.events && Mentions(t.events[k], end.events[k], end))
            && (k in t.reports && k in end.reports ==> end.reports[k] == t.reports[k])
  {
    RunIsOneRemoval(states, tasks, picks, now, s, |tasks|);
    var g :| states[|tasks|] == Without(states[0], g);
    MessagesStay(states[0], g);
  }

  predicate Mentions(before: Event, after: Event, end: Tables) {
    && after.report == (if Resolves(before.report, end.reports) then before.report else None)
    && after.message == (if Resolves(before.message, end.messages) then before.message else None)
  }

  // Only old rows, and how many --------------------------------------------------------------------------------

  /** The rows a task could ever take, and of each its organisation and time; for raw texts, those still stored. */
  function Ids(t: Tables, task: Task): set<nat> {
    match task
    case Reports(_) => t.reports.Keys
    case FailureReports(_) => t.failureReports.Keys
    case TlsReports(_) => t.tlsReports.Keys
    case Jobs(_) => t.jobs.Keys
    case Messages(_) => t.messages.Keys
    case RawMails => set k | k in t.messages && t.messages[k].raw.Some?
    case Rejections => t.rejections.Keys
    case Logins => t.logins.Keys
  }

  function Stamp(t: Tables, task: Task, k: nat): (nat, int)
    requires k in Ids(t, task)
  {
    match task
    case Reports(_) => (t.reports[k].organization, t.reports[k].created)
    case FailureReports(_) => (t.failureReports[k].organization, t.failureReports[k].created)
    case TlsReports(_) => (t.tlsReports[k].organization, t.tlsReports[k].created)
    case Jobs(_) => (t.jobs[k].organization, t.jobs[k].created)
    case Messages(_) => (t.messages[k].organization, t.messages[k].received)
    case RawMails => (t.messages[k].organization, t.messages[k].received)
    case Rejections => (0, t.rejections[k].created)
    case Logins => (0, t.logins[k].created)
  }

  predicate SameKind(a: Task, b: Task) {
    match a
    case Reports(_) => b.Reports?
    case FailureReports(_) => b.FailureReports?
    case TlsReports(_) => b.TlsReports?
    case Jobs(_) => b.Jobs?
    case Messages(_) => b.Messages?
    case RawMails => b.RawMails?
    case Rejections => b.Rejections?
    case Logins => b.Logins?
  }

  predicate HasOwner(task: Task) {
    !task.RawMails? && !task.Rejections? && !task.Logins?
  }

  function TakenOf(g: Gone, kind: Task): set<nat> {
    match kind
    case Reports(_) => g.reports
    case FailureReports(_) => g.failureReports
    case TlsReports(_) => g.tlsReports
    case Jobs(_) => g.jobs
    case Messages(_) => g.messages
    case RawMails => g.messages + g.raws
    case Rejections => g.rejections
    case Logins => g.logins
  }

  lemma IdsLeft(t: Tables, g: Gone, kind: Task)
    ensures Ids(Without(t, g), kind) == Ids(t, kind) - TakenOf(g, kind)
  {
    match kind
    case RawMails => assert Ids(Without(t, g), kind) == Ids(t, kind) - TakenOf(g, kind);
    case FailureReports(_) =>
      assert FailureReportsWithout(t, g.failureReports, g.messages).Keys == Ids(t, kind) - g.failureReports;
    case TlsReports(_) => MessagesStay(t, g);
    case Jobs(_) => MessagesStay(t, g);
    case Messages(_) => MessagesStay(t, g);
    case Reports(_) =>
    case Rejections =>
    case Logins =>
  }

  /** A task takes what it says; removing mails also removes their stored texts. */
  lemma StepTakes(t: Tables, task: Task, ids: set<nat>, kind: Task)
    ensures Ids(Without(t, Took(task, ids)), kind) == if Takes(task, kind) then Ids(t, kind) - ids else Ids(t, kind)
  {
    IdsLeft(t, Took(task, ids), kind);
    TakenByTask(task, ids, kind);
  }

  predicate Takes(task: Task, kind: Task) { SameKind(task, kind) || (task.Messages? && kind.RawMails?) }

  lemma TakenByTask(task: Task, ids: set<nat>, kind: Task)
    ensures TakenOf(Took(task, ids), kind) == if Takes(task, kind) then ids else {}
  {
  }

  lemma StampKept(t: Tables, g: Gone, kind: Task, k: nat)
    requires k in Ids(Without(t, g), kind)
    ensures k in Ids(t, kind) && Stamp(Without(t, g), kind, k) == Stamp(t, kind, k)
  {
    match kind
    case RawMails =>
    case _ =>
  }

  lemma TakenOld(t: Tables, task: Task, ids: set<nat>, now: int, s: Settings, k: nat)
    requires Allowed(t, task, ids, now, s) && k in ids
    ensures k in Ids(t, task) && Stamp(t, task, k).1 < Cutoff(task, now, s)
    ensures HasOwner(task) ==> Stamp(t, task, k).0 == task.of.id
  {
  }

  /** Task i is one that may take row k of this kind, because of its age and its organisation. */
  predicate MayTake(task: Task, kind: Task, stamp: (nat, int), now: int, s: Settings) {
    && Takes(task, kind)
    && stamp.1 < Cutoff(task, now, s) && (HasOwner(task) ==> stamp.0 == task.of.id)
  }

  /** A row that is gone was older than the limit of a task of its organisation that takes rows of its kind; a row
      that is still there carries the same organisation and time. */
  lemma {:induction false} OnlyOldGone(states: seq<Tables>, tasks: seq<Task>, picks: seq<set<nat>>, now: int,
                                       s: Settings, n: nat, kind: Task, k: nat)
    requires IsRun(states, tasks, picks, now, s) && n <= |tasks| && k in Ids(states[0], kind)
    ensures if k in Ids(states[n], kind) then Stamp(states[n], kind, k) == Stamp(states[0], kind, k)
            else exists i :: 0 <= i < n && MayTake(tasks[i], kind, Stamp(states[0], kind, k), now, s)
  {
    if n > 0 {
      OnlyOldGone(states, tasks, picks, now, s, n - 1, kind, k);
      RunGone(states, tasks, picks, now, s, n - 1, kind, k);
    }
  }

  lemma RunGone(states: seq<Tables>, tasks: seq<Task>, picks: seq<set<nat>>, now: int, s: Settings, i: nat, kind: Task,
                k: nat)
    requires IsRun(states, tasks, picks, now, s) && i < |tasks|
    ensures k !in Ids(states[i], kind) ==> k !in Ids(states[i + 1], kind)
    ensures k in Ids(states[i], kind) ==>
              if k in Ids(states[i + 1], kind) then Stamp(states[i + 1], kind, k) == Stamp(states[i], kind, k)
              else MayTake(tasks[i], kind, Stamp(states[i], kind, k), now, s)
  {
    RunMoves(states, tasks, picks, now, s, i);
    if k in Ids(states[i], kind) {
      GoneByTask(states[i], tasks[i], picks[i], states[i + 1], now, s, kind, k);
    } else {
      StepTakes(states[i], tasks[i], picks[i], kind);
    }
  }

  lemma GoneByTask(t: Tables, task: Task, ids: set<nat>, next: Tables, now: int, s: Settings, kind: Task, k: nat)
    requires Allowed(t, task, ids, now, s) && next == Without(t, Took(task, ids)) && k in Ids(t, kind)
    ensures if k in Ids(next, kind) then Stamp(next, kind, k) == Stamp(t, kind, k)
            else MayTake(task, kind, Stamp(t, kind, k), now, s)
  {
    StepTakes(t, task, ids, kind);
    if k in Ids(next, kind) {
      StampKept(t, Took(task, ids), kind, k);
    } else {
      TakenOfKind(t, task, ids, now, s, kind, k);
    }
  }

  lemma TakenOfKind(t: Tables, task: Task, ids: set<nat>, now: int, s: Settings, kind: Task, k: nat)
    requires Allowed(t, task, ids, now, s) && k in ids && k in Ids(t, kind) && Takes(task, kind)
    ensures MayTake(task, kind, Stamp(t, kind, k), now, s)
  {
    TakenOld(t, task, ids, now, s, k);
    assert Stamp(t, kind, k) == Stamp(t, task, k);
  }

  // How many ---------------------------------------------------------------------------------------------------

  /** Rows of this kind and, where a task has one, of its organisation. */
  function Own(t: Tables, q: Task): set<nat> {
    set k | k in Ids(t, q) && (HasOwner(q) ==> Stamp(t, q, k).0 == q.of.id)
  }

  predicate SameTask(a: Task, b: Task) {
    SameKind(a, b) && (HasOwner(a) ==> a.of.id == b.of.id)
  }

  predicate NoTaskTwice(tasks: seq<Task>) {
    forall i, j :: 0 <= i < j < |tasks| ==> !SameTask(tasks[i], tasks[j])
  }

  /** Another task leaves the rows of a kind and organisation alone; the task itself takes its batch of them. */
  lemma StepOwn(t: Tables, task: Task, ids: set<nat>, now: int, s: Settings, q: Task)
    requires Allowed(t, task, ids, now, s) && !q.RawMails?
    ensures Own(Without(t, Took(task, ids)), q) == if SameTask(task, q) then Own(t, q) - ids else Own(t, q)
    ensures SameTask(task, q) ==> ids <= Own(t, q)
  {
    var next := Without(t, Took(task, ids));
    StepTakes(t, task, ids, q);
    forall k | k in Ids(next, q) ensures k in Ids(t, q) && Stamp(next, q, k) == Stamp(t, q, k) {
      StampKept(t, Took(task, ids), q, k);
    }
    if SameKind(task, q) {
      forall k | k in ids ensures k in Ids(t, q) && (HasOwner(task) ==> Stamp(t, q, k).0 == task.of.id) {
        TakenOld(t, task, ids, now, s, k);
        SameStamp(t, task, q, k);
      }
    }
    OwnLeft(t, task, ids, next, q);
  }

  lemma SameStamp(t: Tables, task: Task, q: Task, k: nat)
    requires SameKind(task, q) && k in Ids(t, task)
    ensures k in Ids(t, q) && Stamp(t, q, k) == Stamp(t, task, k) && HasOwner(task) == HasOwner(q)
  {
  }

  lemma OwnLeft(t: Tables, task: Task, ids: set<nat>, next: Tables, q: Task)
    requires Ids(next, q) == if SameKind(task, q) then Ids(t, q) - ids else Ids(t, q)
    requires forall k :: k in Ids(next, q) ==> k in Ids(t, q) && Stamp(next, q, k) == Stamp(t, q, k)
    requires SameKind(task, q) ==>
               forall k :: k in ids ==> k in Ids(t, q) && (HasOwner(task) ==> Stamp(t, q, k).0 == task.of.id)
    ensures Own(next, q) == if SameTask(task, q) then Own(t, q) - ids else Own(t, q)
    ensures SameTask(task, q) ==> ids <= Own(t, q)
  {
  }

  lemma RunOwn(states: seq<Tables>, tasks: seq<Task>, picks: seq<set<nat>>, now: int, s: Settings, i: nat, q: Task)
    requires IsRun(states, tasks, picks, now, s) && i < |tasks| && !q.RawMails?
    ensures Own(states[i + 1], q) == if SameTask(tasks[i], q) then Own(states[i], q) - picks[i] else Own(states[i], q)
    ensures SameTask(tasks[i], q) ==> picks[i] <= Own(states[i], q)
  {
    RunMoves(states, tasks, picks, now, s, i);
    StepOwn(states[i], tasks[i], picks[i], now, s, q);
  }

  lemma {:induction false} OwnAfter(states: seq<Tables>, tasks: seq<Task>, picks: seq<set<nat>>, now: int, s: Settings,
                                    n: nat, p: nat)
    requires IsRun(states, tasks, picks, now, s) && NoTaskTwice(tasks) && n <= |tasks|
    requires p < |tasks| && !tasks[p].RawMails?
    ensures Own(states[n], tasks[p]) == if p < n then Own(states[0], tasks[p]) - picks[p] else Own(states[0], tasks[p])
    ensures p < n ==> picks[p] <= Own(states[0], tasks[p])
  {
    if n > 0 {
      OwnAfter(states, tasks, picks, now, s, n - 1, p);
      RunOwn(states, tasks, picks, now, s, n - 1, tasks[p]);
      assert n - 1 != p ==> !SameTask(tasks[n - 1], tasks[p]) by {
        if n - 1 < p { assert !SameTask(tasks[n - 1], tasks[p]); }
        if p < n - 1 { assert !SameTask(tasks[p], tasks[n - 1]); }
      }
    }
  }

  /** Old rows of this kind and organisation. */
  function OwnOld(t: Tables, q: Task, now: int, s: Settings): set<nat> {
    set k | k in Own(t, q) && Stamp(t, q, k).1 < Cutoff(q, now, s)
  }

  lemma EligibleIsOld(t: Tables, q: Task, now: int, s: Settings)
    ensures Eligible(t, q, now, s) <= OwnOld(t, q, now, s)
    ensures !q.Jobs? ==> Eligible(t, q, now, s) == OwnOld(t, q, now, s)
  {
  }

  lemma OwnSameOld(t: Tables, g: Gone, q: Task, now: int, s: Settings)
    requires Own(Without(t, g), q) == Own(t, q)
    ensures OwnOld(Without(t, g), q, now, s) == OwnOld(t, q, now, s)
  {
    forall k | k in Own(t, q) ensures Stamp(Without(t, g), q, k) == Stamp(t, q, k) {
      assert k in Own(Without(t, g), q);
      StampKept(t, g, q, k);
    }
  }

  /** Removing reports makes jobs free; it never makes one named. */
  lemma StaysFree(t: Tables, g: Gone, q: Task, now: int, s: Settings)
    requires q.Jobs?
    ensures Eligible(t, q, now, s) == set k | k in OwnOld(t, q, now, s) && Unreferred(t, k)
    ensures forall k :: Unreferred(t, k) ==> Unreferred(Without(t, g), k)
  {
  }

  lemma OwnSameEligible(t: Tables, g: Gone, q: Task, now: int, s: Settings)
    requires !q.RawMails? && Own(Without(t, g), q) == Own(t, q)
    ensures Eligible(t, q, now, s) <= Eligible(Without(t, g), q, now, s)
    ensures !q.Jobs? ==> Eligible(Without(t, g), q, now, s) == Eligible(t, q, now, s)
  {
    var next := Without(t, g);
    OwnSameOld(t, g, q, now, s);
    if q.Jobs? {
      StaysFree(t, g, q, now, s);
      StaysFree(next, g, q, now, s);
    } else {
      EligibleIsOld(t, q, now, s);
      EligibleIsOld(next, q, now, s);
    }
  }

  predicate Unlimited(task: Task) { task.Rejections? || task.Logins? }

  /** What a run takes of one kind and organisation: as much as the limit allows of what is old enough. Jobs may
      become free within the run, so of them it takes at least that and never more than the limit. Of rejections and
      login attempts it takes all that are old enough. */
  lemma RemovesBatch(states: seq<Tables>, tasks: seq<Task>, picks: seq<set<nat>>, now: int, s: Settings, p: nat)
    requires IsRun(states, tasks, picks, now, s) && NoTaskTwice(tasks) && p < |tasks| && !tasks[p].RawMails?
    ensures var gone, ready := Own(states[0], tasks[p]) - Own(states[|tasks|], tasks[p]),
                               Eligible(states[0], tasks[p], now, s);
            && gone <= OwnOld(states[0], tasks[p], now, s)
            && (if Unlimited(tasks[p]) then gone == ready else Min(s.limit, |ready|) <= |gone| <= s.limit)
            && (!tasks[p].Jobs? && !Unlimited(tasks[p]) ==> |gone| == Min(s.limit, |ready|))
  {
    var q := tasks[p];
    OwnAfter(states, tasks, picks, now, s, |tasks|, p);
    OwnAfter(states, tasks, picks, now, s, p, p);
    var gone := Own(states[0], q) - Own(states[|tasks|], q);
    assert gone == picks[p];
    RunMoves(states, tasks, picks, now, s, p);
    RunIsOneRemoval(states, tasks, picks, now, s, p);
    var g :| states[p] == Without(states[0], g);
    OwnSameEligible(states[0], g, q, now, s);
    CardinalityGrows(Eligible(states[0], q, now, s), Eligible(states[p], q, now, s));
    forall k | k in gone ensures k in OwnOld(states[0], q, now, s) {
      TakenOld(states[p], q, picks[p], now, s, k);
      StampKept(states[0], g, q, k);
    }
  }

  lemma CardinalityGrows<T>(a: set<T>, b: set<T>)
    requires a <= b
    ensures |a| <= |b| && (|a| == |b| ==> a == b)
  {
    assert b == a + (b - a);
    assert |b| == |a| + |b - a|;
    if |a| == |b| {
      assert b - a == {};
    }
  }

  // The tasks of a run are all different ------------------------------------------------------------------------

  predicate DistinctOrganizations(organizations: seq<Organization>) {
    forall i, j :: 0 <= i < j < |organizations| ==> organizations[i].id != organizations[j].id
  }

  lemma {:induction false} TaskAt(organizations: seq<Organization>, i: nat, c: nat)
    requires i < |organizations| && c < 5
    ensures |OrganizationTasks(organizations)| == 5 * |organizations|
    ensures OrganizationTasks(organizations)[5 * i + c] == TasksOf(organizations[i])[c]
  {
    var last := |organizations| - 1;
    if i < last {
      TaskAt(organizations[..last], i, c);
    } else if last > 0 {
      TaskAt(organizations[..last], 0, 0);
    }
  }

  lemma TasksDiffer(organizations: seq<Organization>)
    requires DistinctOrganizations(organizations)
    ensures NoTaskTwice(Tasks(organizations))
  {
    var tasks := Tasks(organizations);
    var n := 5 * |organizations|;
    assert |OrganizationTasks(organizations)| == n by {
      if organizations != [] { TaskAt(organizations, 0, 0); }
    }
    forall i, j | 0 <= i < j < |tasks| ensures !SameTask(tasks[i], tasks[j]) {
      if i < n {
        TaskAt(organizations, i / 5, i % 5);
        if j < n {
          TaskAt(organizations, j / 5, j % 5);
          if i / 5 != j / 5 {
            assert organizations[i / 5].id != organizations[j / 5].id;
          }
        }
      }
    }
  }
}
