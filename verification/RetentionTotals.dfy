/** What a run takes of each kind over all organisations, and when that stays within the limit. */
module RetentionTotals {
  import opened Wrappers
  import opened Retention
  import opened RetentionRuns

  /** The task of the same kind for an organisation. */
  function For(kind: Task, o: Organization): (task: Task)
    requires HasOwner(kind)
    ensures SameKind(task, kind) && task.of == o
  {
    match kind
    case Reports(_) => Reports(o)
    case FailureReports(_) => FailureReports(o)
    case TlsReports(_) => TlsReports(o)
    case Jobs(_) => Jobs(o)
    case Messages(_) => Messages(o)
  }

  function Column(kind: Task): (c: nat)
    requires HasOwner(kind)
    ensures c < 5 && forall o :: TasksOf(o)[c] == For(kind, o)
  {
    match kind
    case Reports(_) => 0
    case FailureReports(_) => 1
    case TlsReports(_) => 2
    case Jobs(_) => 3
    case Messages(_) => 4
  }

  function Portion(t: Tables, kind: Task, o: Organization, now: int, s: Settings): nat
    requires HasOwner(kind)
  {
    Min(s.limit, |Eligible(t, For(kind, o), now, s)|)
  }

  function Sum(numbers: seq<nat>): nat {
    if numbers == [] then 0 else Sum(numbers[..|numbers| - 1]) + numbers[|numbers| - 1]
  }

  /** What the limit allows of each organisation, all together. */
  function Portions(t: Tables, kind: Task, organizations: seq<Organization>, now: int, s: Settings): nat
    requires HasOwner(kind)
  {
    Sum(PortionList(t, kind, organizations, now, s))
  }

  function PortionList(t: Tables, kind: Task, organizations: seq<Organization>, now: int, s: Settings): seq<nat>
    requires HasOwner(kind)
  {
    seq(|organizations|, i requires 0 <= i < |organizations| => Portion(t, kind, organizations[i], now, s))
  }

  function IdList(organizations: seq<Organization>): seq<nat> {
    seq(|organizations|, i requires 0 <= i < |organizations| => organizations[i].id)
  }

  // Adding up over owners ------------------------------------------------------------------------------------------

  type Owner = nat -> nat

  function OfOne(rows: set<nat>, owner: Owner, id: nat): set<nat> { set k | k in rows && owner(k) == id }

  function OfListed(rows: set<nat>, owner: Owner, ids: seq<nat>): set<nat> { set k | k in rows && owner(k) in ids }

  lemma ListedNext(rows: set<nat>, owner: Owner, ids: seq<nat>, before: set<nat>, last: set<nat>)
    requires Distinct(ids) && ids != []
    requires before == OfListed(rows, owner, ids[..|ids| - 1]) && last == OfOne(rows, owner, ids[|ids| - 1])
    ensures OfListed(rows, owner, ids) == before + last && before !! last
  {
    assert ids == ids[..|ids| - 1] + [ids[|ids| - 1]];
  }

  predicate Piece(rows: set<nat>, owner: Owner, id: nat, least: nat, most: nat, exact: bool) {
    var n := |OfOne(rows, owner, id)|;
    least <= n <= most && (exact ==> n == least)
  }

  predicate Pieces(rows: set<nat>, owner: Owner, ids: seq<nat>, least: seq<nat>, most: nat, exact: bool)
    requires |least| == |ids|
  {
    forall i :: 0 <= i < |ids| ==> Piece(rows, owner, ids[i], least[i], most, exact)
  }

  lemma {:induction false} PiecesAddUp(rows: set<nat>, owner: Owner, ids: seq<nat>, least: seq<nat>, most: nat,
                                       exact: bool)
    requires Distinct(ids) && |least| == |ids| && Pieces(rows, owner, ids, least, most, exact)
    ensures Sum(least) <= |OfListed(rows, owner, ids)| <= Times(most, |ids|)
    ensures exact ==> |OfListed(rows, owner, ids)| == Sum(least)
  {
    if ids == [] {
      assert OfListed(rows, owner, ids) == {};
    } else {
      var n := |ids| - 1;
      var before, last := OfListed(rows, owner, ids[..n]), OfOne(rows, owner, ids[n]);
      assert Pieces(rows, owner, ids[..n], least[..n], most, exact);
      PiecesAddUp(rows, owner, ids[..n], least[..n], most, exact);
      ListedNext(rows, owner, ids, before, last);
      assert Piece(rows, owner, ids[n], least[n], most, exact);
      assert |before + last| == |before| + |last|;
    }
  }

  /** So many times the limit. */
  function Times(limit: nat, n: nat): (r: nat)
    ensures n <= 1 ==> r <= limit
  {
    if n == 0 then 0 else Times(limit, n - 1) + limit
  }

  function OwnerOf(t: Tables, kind: Task): Owner {
    k => if k in Ids(t, kind) then Stamp(t, kind, k).0 else 0
  }

  lemma OwnerListed(organizations: seq<Organization>, i: nat)
    requires i < |Tasks(organizations)| && HasOwner(Tasks(organizations)[i])
    ensures Tasks(organizations)[i].of.id in IdList(organizations)
  {
    TaskCount(organizations);
    TaskAt(organizations, i / 5, i % 5);
    assert Tasks(organizations)[i] == TasksOf(organizations[i / 5])[i % 5];
    assert IdList(organizations)[i / 5] == Tasks(organizations)[i].of.id;
  }

  lemma TaskCount(organizations: seq<Organization>)
    ensures |OrganizationTasks(organizations)| == 5 * |organizations|
  {
    if organizations != [] {
      TaskAt(organizations, 0, 0);
    }
  }

  /** What is gone of an organisation is what it lost. */
  lemma OwnGone(states: seq<Tables>, tasks: seq<Task>, picks: seq<set<nat>>, now: int, s: Settings, q: Task,
                gone: set<nat>)
    requires IsRun(states, tasks, picks, now, s) && HasOwner(q)
    requires gone == Ids(states[0], q) - Ids(states[|tasks|], q)
    ensures OfOne(gone, OwnerOf(states[0], q), q.of.id) == Own(states[0], q) - Own(states[|tasks|], q)
  {
    forall k | k in Ids(states[0], q) && k in Ids(states[|tasks|], q)
      ensures Stamp(states[|tasks|], q, k) == Stamp(states[0], q, k)
    {
      OnlyOldGone(states, tasks, picks, now, s, |tasks|, q, k);
    }
  }

  lemma TaskOf(organizations: seq<Organization>, kind: Task, i: nat)
    requires HasOwner(kind) && i < |organizations|
    ensures var p := 5 * i + Column(kind);
            p < |Tasks(organizations)| && Tasks(organizations)[p] == For(kind, organizations[i])
  {
    TaskCount(organizations);
    TaskAt(organizations, i, Column(kind));
  }

  lemma PortionGone(states: seq<Tables>, organizations: seq<Organization>, picks: seq<set<nat>>, now: int, s: Settings,
                    kind: Task, gone: set<nat>, i: nat)
    requires IsRun(states, Tasks(organizations), picks, now, s) && DistinctOrganizations(organizations)
    requires HasOwner(kind) && i < |organizations|
    requires gone == Ids(states[0], kind) - Ids(states[|Tasks(organizations)|], kind)
    ensures Piece(gone, OwnerOf(states[0], kind), organizations[i].id,
                  Portion(states[0], kind, organizations[i], now, s), s.limit, !kind.Jobs?)
  {
    var tasks, p, q := Tasks(organizations), 5 * i + Column(kind), For(kind, organizations[i]);
    TaskOf(organizations, kind, i);
    TasksDiffer(organizations);
    RemovesBatch(states, tasks, picks, now, s, p);
    SameRows(states[0], kind, q);
    SameRows(states[|tasks|], kind, q);
    OwnGone(states, tasks, picks, now, s, q, gone);
    SameOwner(gone, OwnerOf(states[0], kind), OwnerOf(states[0], q), q.of.id);
  }

  lemma SameOwner(rows: set<nat>, a: Owner, b: Owner, id: nat)
    requires forall k :: a(k) == b(k)
    ensures OfOne(rows, a, id) == OfOne(rows, b, id)
  {
  }

  lemma SameRows(t: Tables, kind: Task, q: Task)
    requires SameKind(q, kind)
    ensures Ids(t, q) == Ids(t, kind) && forall k :: OwnerOf(t, q)(k) == OwnerOf(t, kind)(k)
  {
    forall k | k in Ids(t, q) ensures k in Ids(t, kind) && Stamp(t, kind, k) == Stamp(t, q, k) {
      SameStamp(t, q, kind, k);
    }
    SameIdsOf(t, kind, q);
  }

  lemma SameIdsOf(t: Tables, kind: Task, q: Task)
    requires SameKind(q, kind)
    ensures Ids(t, q) == Ids(t, kind)
  {
  }

  lemma GoneListed(states: seq<Tables>, organizations: seq<Organization>, picks: seq<set<nat>>, now: int, s: Settings,
                   kind: Task, k: nat)
    requires IsRun(states, Tasks(organizations), picks, now, s) && HasOwner(kind)
    requires k in Ids(states[0], kind) && k !in Ids(states[|Tasks(organizations)|], kind)
    ensures Stamp(states[0], kind, k).0 in IdList(organizations)
  {
    var tasks := Tasks(organizations);
    OnlyOldGone(states, tasks, picks, now, s, |tasks|, kind, k);
    var i :| 0 <= i < |tasks| && MayTake(tasks[i], kind, Stamp(states[0], kind, k), now, s);
    OwnerListed(organizations, i);
  }

  /** Over all organisations a run takes of a kind what the limit allows of each, all together; of jobs, which may
      become free within the run, at least that. */
  lemma Total(states: seq<Tables>, organizations: seq<Organization>, picks: seq<set<nat>>, now: int, s: Settings,
              kind: Task)
    requires IsRun(states, Tasks(organizations), picks, now, s) && DistinctOrganizations(organizations)
    requires HasOwner(kind)
    ensures var gone := Ids(states[0], kind) - Ids(states[|Tasks(organizations)|], kind);
            && Portions(states[0], kind, organizations, now, s) <= |gone| <= Times(s.limit, |organizations|)
            && (!kind.Jobs? ==> |gone| == Portions(states[0], kind, organizations, now, s))
  {
    var gone := Ids(states[0], kind) - Ids(states[|Tasks(organizations)|], kind);
    var owner, ids, least := OwnerOf(states[0], kind), IdList(organizations),
                             PortionList(states[0], kind, organizations, now, s);
    forall i | 0 <= i < |organizations|
      ensures Piece(gone, owner, ids[i], least[i], s.limit, !kind.Jobs?)
    {
      PortionGone(states, organizations, picks, now, s, kind, gone, i);
    }
    PiecesAddUp(gone, owner, ids, least, s.limit, !kind.Jobs?);
    forall k | k in gone ensures owner(k) in ids {
      GoneListed(states, organizations, picks, now, s, kind, k);
    }
    assert OfListed(gone, owner, ids) == gone;
  }

  /** All rejections and login attempts old enough go, whatever the limit is. */
  lemma AllOldGone(states: seq<Tables>, organizations: seq<Organization>, picks: seq<set<nat>>, now: int, s: Settings,
                   kind: Task)
    requires IsRun(states, Tasks(organizations), picks, now, s) && DistinctOrganizations(organizations)
    requires Unlimited(kind)
    ensures Ids(states[0], kind) - Ids(states[|Tasks(organizations)|], kind) == Eligible(states[0], kind, now, s)
  {
    var tasks := Tasks(organizations);
    TaskCount(organizations);
    TasksDiffer(organizations);
    var p := 5 * |organizations| + if kind.Rejections? then 1 else 2;
    assert tasks[p] == kind;
    RemovesBatch(states, tasks, picks, now, s, p);
    OwnIsAll(states[0], kind);
    OwnIsAll(states[|tasks|], kind);
  }

  lemma OwnIsAll(t: Tables, q: Task)
    requires !HasOwner(q)
    ensures Own(t, q) == Ids(t, q)
  {
  }

  // Stored raw texts --------------------------------------------------------------------------------------------

  /** Mails that are still there but have lost their stored text. */
  function Emptied(before: Tables, after: Tables): set<nat> {
    set k | k in after.messages && k in before.messages && before.messages[k].raw.Some? && after.messages[k].raw.None?
  }

  /** A task other than the one for raw texts changes no mail it leaves. */
  lemma {:induction false} MailsSame(states: seq<Tables>, tasks: seq<Task>, picks: seq<set<nat>>, now: int, s: Settings,
                                     from: nat, to: nat)
    requires IsRun(states, tasks, picks, now, s) && from <= to <= |tasks|
    requires forall i :: from <= i < to ==> !tasks[i].RawMails?
    ensures forall k :: k in states[to].messages ==>
              k in states[from].messages && states[to].messages[k] == states[from].messages[k]
    ensures (forall i :: from <= i < to ==> !tasks[i].Messages?) ==> states[to].messages == states[from].messages
  {
    if from < to {
      var i := to - 1;
      MailsSame(states, tasks, picks, now, s, from, i);
      RunMoves(states, tasks, picks, now, s, i);
      MailsStep(states[i], tasks[i], picks[i]);
      assert i + 1 == to;
    }
  }

  lemma MailsStep(t: Tables, task: Task, ids: set<nat>)
    requires !task.RawMails?
    ensures var next := Without(t, Took(task, ids));
            && (forall k :: k in next.messages ==> k in t.messages && next.messages[k] == t.messages[k])
            && (!task.Messages? ==> next.messages == t.messages)
  {
    var g := Took(task, ids);
    TookMails(task, ids);
    MailsLeft(t, g.messages);
    assert Without(t, g).messages == MessagesWithout(t, g.messages, g.raws);
  }

  lemma TookMails(task: Task, ids: set<nat>)
    requires !task.RawMails?
    ensures Took(task, ids).raws == {} && (!task.Messages? ==> Took(task, ids).messages == {})
  {
  }

  lemma MailsLeft(t: Tables, gone: set<nat>)
    ensures var left := MessagesWithout(t, gone, {});
            && (forall k :: k in left ==> k in t.messages && left[k] == t.messages[k])
            && (gone == {} ==> left == t.messages)
  {
  }

  lemma RawsStep(t: Tables, ids: set<nat>, now: int, s: Settings)
    requires Allowed(t, RawMails, ids, now, s)
    ensures var next := Without(t, Took(RawMails, ids));
            next.messages.Keys == t.messages.Keys && Emptied(t, next) == ids
  {
  }

  lemma TaskKinds(organizations: seq<Organization>)
    ensures var tasks, p := Tasks(organizations), 5 * |organizations|;
            && |tasks| == p + 3 && tasks[p] == RawMails && tasks[p + 1] == Rejections && tasks[p + 2] == Logins
            && forall i :: 0 <= i < p ==> !tasks[i].RawMails?
  {
    var tasks, p := Tasks(organizations), 5 * |organizations|;
    TaskCount(organizations);
    forall i | 0 <= i < p ensures !tasks[i].RawMails? {
      TaskAt(organizations, i / 5, i % 5);
      assert tasks[i] == TasksOf(organizations[i / 5])[i % 5];
    }
  }

  lemma RawsOnce(states: seq<Tables>, tasks: seq<Task>, picks: seq<set<nat>>, now: int, s: Settings, p: nat)
    requires IsRun(states, tasks, picks, now, s) && p < |tasks| && tasks[p] == RawMails
    requires forall i :: 0 <= i < p ==> !tasks[i].RawMails?
    requires forall i :: p < i < |tasks| ==> !tasks[i].RawMails? && !tasks[i].Messages?
    ensures Emptied(states[0], states[|tasks|]) == picks[p]
    ensures IsBatch(picks[p], Eligible(states[0], RawMails, now, s) * states[|tasks|].messages.Keys, s.limit)
  {
    MailsSame(states, tasks, picks, now, s, 0, p);
    RunMoves(states, tasks, picks, now, s, p);
    RawsStep(states[p], picks[p], now, s);
    MailsSame(states, tasks, picks, now, s, p + 1, |tasks|);
    EmptiedAfter(states[0], states[p], states[|tasks|], now, s);
    assert Emptied(states[p], states[|tasks|]) == Emptied(states[p], states[p + 1]);
  }

  /** Of the mails a run leaves, those lose their text that are old enough, as many as the limit allows. */
  lemma RawsEmptied(states: seq<Tables>, organizations: seq<Organization>, picks: seq<set<nat>>, now: int, s: Settings)
    requires IsRun(states, Tasks(organizations), picks, now, s)
    ensures var end, ready := states[|Tasks(organizations)|], Eligible(states[0], RawMails, now, s);
            && Emptied(states[0], end) <= ready
            && |Emptied(states[0], end)| == Min(s.limit, |ready * end.messages.Keys|)
  {
    TaskKinds(organizations);
    RawsOnce(states, Tasks(organizations), picks, now, s, 5 * |organizations|);
  }

  lemma EmptiedAfter(first: Tables, mid: Tables, next: Tables, now: int, s: Settings)
    requires forall k :: k in mid.messages ==> k in first.messages && mid.messages[k] == first.messages[k]
    requires next.messages.Keys == mid.messages.Keys
    ensures Emptied(first, next) == Emptied(mid, next)
    ensures Eligible(mid, RawMails, now, s) == Eligible(first, RawMails, now, s) * next.messages.Keys
  {
  }

  // The limit of a run -------------------------------------------------------------------------------------------

  function Lost(before: Tables, after: Tables, kind: Task): set<nat> {
    if kind.RawMails? then Emptied(before, after) else Ids(before, kind) - Ids(after, kind)
  }

  /** What the limit compares with, known before the run. */
  predicate WithinReach(t: Tables, kind: Task, organizations: seq<Organization>, now: int, s: Settings) {
    if kind.RawMails? then true
    else if Unlimited(kind) then |Eligible(t, kind, now, s)| <= s.limit
    else Portions(t, kind, organizations, now, s) <= s.limit
  }

  /** A run takes at most the limit of a kind exactly when the portions of the organisations do not exceed it together;
      of rejections and login attempts exactly when no more are old enough; and of stored texts always. Of jobs it
      takes more at least when the portions do. */
  lemma LimitExactly(states: seq<Tables>, organizations: seq<Organization>, picks: seq<set<nat>>, now: int, s: Settings,
                     kind: Task)
    requires IsRun(states, Tasks(organizations), picks, now, s) && DistinctOrganizations(organizations)
    ensures var lost := Lost(states[0], states[|Tasks(organizations)|], kind);
            && (|lost| <= s.limit ==> WithinReach(states[0], kind, organizations, now, s))
            && (!kind.Jobs? && WithinReach(states[0], kind, organizations, now, s) ==> |lost| <= s.limit)
            && (|organizations| <= 1 && !Unlimited(kind) ==> |lost| <= s.limit)
  {
    if kind.RawMails? {
      RawsEmptied(states, organizations, picks, now, s);
    } else if Unlimited(kind) {
      AllOldGone(states, organizations, picks, now, s, kind);
    } else {
      Total(states, organizations, picks, now, s, kind);
    }
  }
}
