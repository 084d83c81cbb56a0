/** Which days decide about which rows: a run takes what is older, and nothing younger. */
module RetentionAges {
  import opened Wrappers
  import opened Retention
  import opened RetentionRuns
  import opened RetentionTotals

  /** The days rows of an organisation are kept; failure reports no longer than their own setting. */
  function DaysKept(kind: Task, o: Organization, s: Settings): nat
    requires HasOwner(kind)
  {
    if kind.FailureReports? && s.failureDays < o.days then s.failureDays else o.days
  }

  /** The rows of an organisation older than that many times 86400 seconds. */
  function Expired(t: Tables, kind: Task, o: Organization, now: int, s: Settings): set<nat>
    requires HasOwner(kind)
  {
    set k | k in Ids(t, kind) && Stamp(t, kind, k).0 == o.id && Stamp(t, kind, k).1 < now - 86400 * DaysKept(kind, o, s)
  }

  /** What an organisation has lost of a kind. */
  function LostOf(before: Tables, after: Tables, kind: Task, o: Organization): set<nat>
    requires HasOwner(kind)
  {
    set k | k in Ids(before, kind) && k !in Ids(after, kind) && Stamp(before, kind, k).0 == o.id
  }

  lemma ExpiredIsOld(t: Tables, kind: Task, o: Organization, now: int, s: Settings)
    requires HasOwner(kind)
    ensures Expired(t, kind, o, now, s) == OwnOld(t, For(kind, o), now, s)
  {
    var q := For(kind, o);
    SameIdsOf(t, kind, q);
    assert Cutoff(q, now, s) == now - 86400 * DaysKept(kind, o, s);
    forall k | k in Ids(t, kind) ensures Stamp(t, q, k) == Stamp(t, kind, k) {
      SameStamp(t, q, kind, k);
    }
  }

  lemma LostIsGone(states: seq<Tables>, tasks: seq<Task>, picks: seq<set<nat>>, now: int, s: Settings, kind: Task,
                   o: Organization)
    requires IsRun(states, tasks, picks, now, s) && HasOwner(kind)
    ensures LostOf(states[0], states[|tasks|], kind, o)
         == Own(states[0], For(kind, o)) - Own(states[|tasks|], For(kind, o))
  {
    var q := For(kind, o);
    var gone := Ids(states[0], q) - Ids(states[|tasks|], q);
    OwnGone(states, tasks, picks, now, s, q, gone);
    SameIdsOf(states[0], kind, q);
    SameIdsOf(states[|tasks|], kind, q);
    forall k | k in gone ensures Stamp(states[0], q, k) == Stamp(states[0], kind, k) {
      SameStamp(states[0], q, kind, k);
    }
  }

  /** The expired jobs of an organisation that no report names. */
  function FreeJobs(t: Tables, o: Organization, now: int, s: Settings): set<nat> {
    set k | k in Expired(t, Jobs(o), o, now, s) && forall r :: r in t.reports ==> t.reports[r].job != Some(k)
  }

  lemma FreeIsEligible(t: Tables, o: Organization, now: int, s: Settings)
    ensures FreeJobs(t, o, now, s) == Eligible(t, Jobs(o), now, s)
  {
  }

  /** An organisation loses of each kind only what is older than its days, and all of that when it is no more than the
      limit; of jobs at least those free from the start, as many as the limit allows. */
  lemma AgesExactly(states: seq<Tables>, organizations: seq<Organization>, picks: seq<set<nat>>, now: int, s: Settings,
                    kind: Task, i: nat)
    requires IsRun(states, Tasks(organizations), picks, now, s) && DistinctOrganizations(organizations)
    requires HasOwner(kind) && i < |organizations|
    ensures var lost := LostOf(states[0], states[|Tasks(organizations)|], kind, organizations[i]);
            var expired := Expired(states[0], kind, organizations[i], now, s);
            && lost <= expired
            && (!kind.Jobs? && |expired| <= s.limit ==> lost == expired)
            && (kind.Jobs? ==> Min(s.limit, |FreeJobs(states[0], organizations[i], now, s)|) <= |lost|)
  {
    var tasks, p, q := Tasks(organizations), 5 * i + Column(kind), For(kind, organizations[i]);
    TaskOf(organizations, kind, i);
    TasksDiffer(organizations);
    RemovesBatch(states, tasks, picks, now, s, p);
    LostIsGone(states, tasks, picks, now, s, kind, organizations[i]);
    ExpiredIsOld(states[0], kind, organizations[i], now, s);
    EligibleIsOld(states[0], q, now, s);
    FreeIsEligible(states[0], organizations[i], now, s);
    CardinalityGrows(LostOf(states[0], states[|tasks|], kind, organizations[i]),
                     Expired(states[0], kind, organizations[i], now, s));
  }

  /** Rejections and login attempts go exactly when they are older than their own days; stored texts go only when they
      are older than theirs. */
  lemma OtherAgesExactly(states: seq<Tables>, organizations: seq<Organization>, picks: seq<set<nat>>, now: int,
                         s: Settings, k: nat)
    requires IsRun(states, Tasks(organizations), picks, now, s) && DistinctOrganizations(organizations)
    ensures var first, end := states[0], states[|Tasks(organizations)|];
            && (k in first.rejections ==>
                  (k !in end.rejections <==> first.rejections[k].created < now - 86400 * s.rejectionDays))
            && (k in first.logins ==> (k !in end.logins <==> first.logins[k].created < now - 86400 * s.loginDays))
            && (k in Emptied(first, end) ==> first.messages[k].received < now - 86400 * s.rawDays)
  {
    AllOldGone(states, organizations, picks, now, s, Rejections);
    AllOldGone(states, organizations, picks, now, s, Logins);
    RawsEmptied(states, organizations, picks, now, s);
    OthersEligible(states[0], states[|Tasks(organizations)|], now, s, k);
  }

  lemma OthersEligible(first: Tables, end: Tables, now: int, s: Settings, k: nat)
    requires Ids(first, Rejections) - Ids(end, Rejections) == Eligible(first, Rejections, now, s)
    requires Ids(first, Logins) - Ids(end, Logins) == Eligible(first, Logins, now, s)
    requires Emptied(first, end) <= Eligible(first, RawMails, now, s)
    ensures k in first.rejections ==>
              (k !in end.rejections <==> first.rejections[k].created < now - 86400 * s.rejectionDays)
    ensures k in first.logins ==> (k !in end.logins <==> first.logins[k].created < now - 86400 * s.loginDays)
    ensures k in Emptied(first, end) ==> first.messages[k].received < now - 86400 * s.rawDays
  {
    assert k in Ids(first, Rejections) - Ids(end, Rejections) <==> k in Eligible(first, Rejections, now, s);
    assert k in Ids(first, Logins) - Ids(end, Logins) <==> k in Eligible(first, Logins, now, s);
    assert k in Emptied(first, end) ==> k in Eligible(first, RawMails, now, s);
  }
}
