/** The end of a lock in terms of the recorded attempts: which failures count, how many it takes, and how long it
    lasts. */
module LoginLocks {
  import opened Wrappers
  import opened LoginGuard

  type About = Attempt -> bool

  function FromAddress(kind: string, ip: string): About { (a: Attempt) => a.kind == kind && a.ip == ip }

  function OnAccount(kind: string, account: string): About {
    (a: Attempt) => a.kind == kind && a.account == Some(account)
  }

  /** A failure counts while it is in the window and no success has come at its time or later. */
  predicate Counts(attempts: seq<Attempt>, about: About, window: int, now: int, j: nat)
    requires j < |attempts|
  {
    && about(attempts[j]) && !attempts[j].success && attempts[j].at > now - window
    && forall i :: 0 <= i < |attempts| && about(attempts[i]) && attempts[i].success ==> attempts[i].at < attempts[j].at
  }

  function Counting(attempts: seq<Attempt>, about: About, window: int, now: int): set<nat> {
    set j: nat | j < |attempts| && Counts(attempts, about, window, now, j)
  }

  /** With as many counting failures as the limit, and at least one, the lock lasts the lockout from the latest of them,
      which has to be still to come. */
  ghost predicate LockedBy(attempts: seq<Attempt>, about: About, limit: nat, s: Settings, now: int, until: int) {
    var counting := Counting(attempts, about, s.window, now);
    && |counting| >= limit && until > now
    && (exists j :: j in counting && attempts[j].at + s.lockout == until)
    && (forall j :: j in counting ==> attempts[j].at + s.lockout <= until)
  }

  // Counting ------------------------------------------------------------------------------------------------

  /** Failures after a moment. */
  function After(attempts: seq<Attempt>, about: About, since: int): set<nat> {
    set j: nat | j < |attempts| && about(attempts[j]) && !attempts[j].success && attempts[j].at > since
  }

  lemma {:induction false} FailuresSize(attempts: seq<Attempt>, subject: Subject, about: About, since: int)
    requires forall a :: about(a) <==> Of(a, subject)
    ensures |Failures(attempts, subject, since)| == |After(attempts, about, since)|
  {
    if attempts == [] {
      assert After(attempts, about, since) == {};
    } else {
      var n := |attempts| - 1;
      FailuresSize(attempts[..n], subject, about, since);
      AfterNext(attempts, about, since, n);
    }
  }

  /** One of these attempts was made at this time. */
  predicate MadeAt(attempts: seq<Attempt>, ids: set<nat>, t: int) {
    exists j :: j in ids && j < |attempts| && attempts[j].at == t
  }

  lemma {:induction false} FailuresTimes(attempts: seq<Attempt>, subject: Subject, about: About, since: int, t: int)
    requires forall a :: about(a) <==> Of(a, subject)
    ensures t in Failures(attempts, subject, since) <==> MadeAt(attempts, After(attempts, about, since), t)
  {
    if attempts != [] {
      var n := |attempts| - 1;
      FailuresTimes(attempts[..n], subject, about, since, t);
      AfterNext(attempts, about, since, n);
      MadeAtNext(attempts, After(attempts[..n], about, since), After(attempts, about, since), n, t);
    }
  }

  lemma MadeAtNext(attempts: seq<Attempt>, before: set<nat>, all: set<nat>, n: nat, t: int)
    requires |attempts| == n + 1 && (all == before || all == before + {n}) && forall j :: j in before ==> j < n
    ensures MadeAt(attempts, all, t) <==> MadeAt(attempts[..n], before, t) || (n in all && attempts[n].at == t)
  {
    if MadeAt(attempts[..n], before, t) {
      var j :| j in before && j < n && attempts[..n][j].at == t;
      assert j in all && attempts[j].at == t;
    }
    if MadeAt(attempts, all, t) {
      var j :| j in all && j < |attempts| && attempts[j].at == t;
      assert j < n ==> j in before && attempts[..n][j].at == t;
    }
  }

  lemma AfterNext(attempts: seq<Attempt>, about: About, since: int, n: nat)
    requires |attempts| == n + 1
    ensures After(attempts, about, since)
         == After(attempts[..n], about, since)
            + if about(attempts[n]) && !attempts[n].success && attempts[n].at > since then {n} else {}
    ensures n !in After(attempts[..n], about, since)
  {
  }

  lemma {:induction false} LastSuccessIs(attempts: seq<Attempt>, subject: Subject, about: About, t: int)
    requires forall a :: about(a) <==> Of(a, subject)
    ensures (LastSuccess(attempts, subject).Some? ==> LastSuccess(attempts, subject).value < t)
       <==> forall i :: 0 <= i < |attempts| && about(attempts[i]) && attempts[i].success ==> attempts[i].at < t
  {
    if attempts != [] {
      var n := |attempts| - 1;
      LastSuccessIs(attempts[..n], subject, about, t);
      assert forall i :: 0 <= i < n ==> attempts[..n][i] == attempts[i];
    }
  }

  lemma SinceCounts(attempts: seq<Attempt>, subject: Subject, about: About, s: Settings, now: int)
    requires forall a :: about(a) <==> Of(a, subject)
    ensures After(attempts, about, Since(attempts, subject, s, now)) == Counting(attempts, about, s.window, now)
  {
    forall j: nat | j < |attempts|
      ensures attempts[j].at > Since(attempts, subject, s, now)
         <==> attempts[j].at > now - s.window
              && forall i :: 0 <= i < |attempts| && about(attempts[i]) && attempts[i].success ==>
                   attempts[i].at < attempts[j].at
    {
      LastSuccessIs(attempts, subject, about, attempts[j].at);
    }
  }

  lemma {:induction false} LatestIsMost(times: seq<int>)
    requires times != []
    ensures Latest(times).Some? && Latest(times).value in times
    ensures forall t :: t in times ==> t <= Latest(times).value
  {
    var n := |times| - 1;
    if n > 0 {
      LatestIsMost(times[..n]);
    }
    assert times == times[..n] + [times[n]];
  }

  // The locks -------------------------------------------------------------------------------------------------

  lemma LockExactly(attempts: seq<Attempt>, subject: Subject, about: About, limit: nat, s: Settings, now: int,
                    until: int)
    requires forall a :: about(a) <==> Of(a, subject)
    requires limit == Limit(subject, s)
    ensures SubjectLockedUntil(attempts, subject, s, now) == Some(until)
       <==> LockedBy(attempts, about, limit, s, now, until)
  {
    var since := Since(attempts, subject, s, now);
    var failures := Failures(attempts, subject, since);
    FailuresSize(attempts, subject, about, since);
    forall t ensures t in failures <==> MadeAt(attempts, After(attempts, about, since), t) {
      FailuresTimes(attempts, subject, about, since, t);
    }
    SinceCounts(attempts, subject, about, s, now);
    LockIsLatest(attempts, Counting(attempts, about, s.window, now), failures, limit, s.lockout, now, until);
  }

  lemma LockIsLatest(attempts: seq<Attempt>, counting: set<nat>, failures: seq<int>, limit: nat, lockout: int, now: int,
                     until: int)
    requires |failures| == |counting| && forall j :: j in counting ==> j < |attempts|
    requires forall t :: t in failures <==> MadeAt(attempts, counting, t)
    ensures LockFrom(failures, limit, lockout, now) == Some(until)
       <==> |counting| >= limit && until > now
            && (exists j :: j in counting && attempts[j].at + lockout == until)
            && (forall j :: j in counting ==> attempts[j].at + lockout <= until)
  {
    if failures == [] {
      assert counting == {};
    } else {
      LatestIsMost(failures);
      var latest := Latest(failures).value;
      assert MadeAt(attempts, counting, latest);
      forall i | i in counting ensures attempts[i].at <= latest {
        assert MadeAt(attempts, counting, attempts[i].at);
      }
    }
  }

  /** An address is locked by failures from it, as many as the limit for addresses; an account by failures on it, as
      many as the limit for accounts. */
  lemma LocksExactly(attempts: seq<Attempt>, kind: string, ip: string, account: string, s: Settings, now: int,
                     until: int)
    ensures SubjectLockedUntil(attempts, Ip(kind, ip), s, now) == Some(until)
       <==> LockedBy(attempts, FromAddress(kind, ip), s.perIp, s, now, until)
    ensures SubjectLockedUntil(attempts, Account(kind, account), s, now) == Some(until)
       <==> LockedBy(attempts, OnAccount(kind, account), s.perAccount, s, now, until)
  {
    LockExactly(attempts, Ip(kind, ip), FromAddress(kind, ip), s.perIp, s, now, until);
    LockExactly(attempts, Account(kind, account), OnAccount(kind, account), s.perAccount, s, now, until);
  }

  /** A login is turned away exactly while its address or its account is locked, until the later end of the two; without
      an account only the address counts. */
  lemma LoginLockedExactly(attempts: seq<Attempt>, kind: string, ip: string, account: Option<string>, s: Settings,
                           now: int)
    ensures var locked := LockedUntil(attempts, kind, ip, account, s, now);
            && (locked.Some? ==> LockEnds(attempts, kind, ip, account, s, now, locked.value))
            && (forall until :: LockEnds(attempts, kind, ip, account, s, now, until) ==>
                  locked.Some? && until <= locked.value)
  {
    var name := if account.Some? then account.value else "";
    forall until
      ensures LockEnds(attempts, kind, ip, account, s, now, until)
         <==> SubjectLockedUntil(attempts, Ip(kind, ip), s, now) == Some(until)
              || (name != "" && SubjectLockedUntil(attempts, Account(kind, name), s, now) == Some(until))
    {
      LocksExactly(attempts, kind, ip, name, s, now, until);
    }
  }

  ghost predicate LockEnds(attempts: seq<Attempt>, kind: string, ip: string, account: Option<string>, s: Settings,
                           now: int, until: int)
  {
    || LockedBy(attempts, FromAddress(kind, ip), s.perIp, s, now, until)
    || (account.Some? && account.value != ""
        && LockedBy(attempts, OnAccount(kind, account.value), s.perAccount, s, now, until))
  }

  /** An attempt that is recorded counts from then on as it happened, for its address as long as that fits the column: a
      failure is one more, and a success leaves none. */
  lemma AttemptCounts(attempts: seq<Attempt>, kind: string, ip: string, account: Option<string>, success: bool,
                      now: int, s: Settings)
    requires |ip| <= 45 && ValidSettings(s) && UpTo(attempts, now)
    requires !success ==>
               forall i :: 0 <= i < |attempts| && FromAddress(kind, ip)(attempts[i]) && attempts[i].success ==>
                 attempts[i].at < now
    ensures var before := Counting(attempts, FromAddress(kind, ip), s.window, now);
            Counting(attempts + [Recorded(kind, ip, account, success, now)], FromAddress(kind, ip), s.window, now)
            == if success then {} else before + {|attempts|}
  {
    var about := FromAddress(kind, ip);
    var a := Recorded(kind, ip, account, success, now);
    var all := attempts + [a];
    assert about(a) && a.success == success && a.at == now;
    assert all[|attempts|] == a && forall j :: 0 <= j < |attempts| ==> all[j] == attempts[j];
    forall j: nat | j < |all|
      ensures Counts(all, about, s.window, now, j)
         <==> !success && (j == |attempts| || (j < |attempts| && Counts(attempts, about, s.window, now, j)))
    {
    }
  }
}
