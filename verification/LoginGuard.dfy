/** The lock against guessing passwords: what it counts, how many failures it lets through, and why removing old
    attempts never changes its answer. Times are whole units; DAY of them make a day. */
module LoginGuard {
  import opened Wrappers

  const DAY := 86400
  const IP_SIZE := 45
  const ACCOUNT_SIZE := 255

  datatype Attempt = Attempt(kind: string, ip: string, account: Option<string>, success: bool, at: int)

  /** What a lock is about: the address or the account, for one kind of attempt. */
  datatype Subject = Ip(kind: string, ip: string) | Account(kind: string, account: string)

  datatype Settings = Settings(window: int, lockout: int, perIp: nat, perAccount: nat, days: nat)

  /** The ranges the configuration allows. */
  predicate ValidSettings(s: Settings) {
    60 <= s.window <= DAY && 60 <= s.lockout <= DAY && s.perIp >= 1 && s.perAccount >= 1 && s.days >= 1
  }

  function Limit(subject: Subject, s: Settings): nat {
    if subject.Ip? then s.perIp else s.perAccount
  }

  predicate Of(a: Attempt, subject: Subject) {
    match subject
    case Ip(kind, ip) => a.kind == kind && a.ip == ip
    case Account(kind, account) => a.kind == kind && a.account == Some(account)
  }

  // The decision ---------------------------------------------------------------------------------------

  function Later(a: Option<int>, b: int): Option<int> {
    if a.Some? && a.value > b then a else Some(b)
  }

  function LastSuccess(attempts: seq<Attempt>, subject: Subject): Option<int> {
    if attempts == [] then None
    else
      var last := attempts[|attempts| - 1];
      var before := LastSuccess(attempts[..|attempts| - 1], subject);
      if Of(last, subject) && last.success then Later(before, last.at) else before
  }

  /** The times of the failures after a moment, in the order they were recorded. */
  function Failures(attempts: seq<Attempt>, subject: Subject, since: int): seq<int> {
    if attempts == [] then []
    else
      var last := attempts[|attempts| - 1];
      var before := Failures(attempts[..|attempts| - 1], subject, since);
      if Of(last, subject) && !last.success && last.at > since then before + [last.at] else before
  }

  function Latest(times: seq<int>): Option<int> {
    if times == [] then None else Later(Latest(times[..|times| - 1]), times[|times| - 1])
  }

  function Since(attempts: seq<Attempt>, subject: Subject, s: Settings, now: int): int {
    AtLeast(LastSuccess(attempts, subject), now - s.window)
  }

  function AtLeast(time: Option<int>, start: int): int {
    if time.Some? && time.value > start then time.value else start
  }

  function SubjectLockedUntil(attempts: seq<Attempt>, subject: Subject, s: Settings, now: int): Option<int> {
    LockFrom(Failures(attempts, subject, Since(attempts, subject, s, now)), Limit(subject, s), s.lockout, now)
  }

  function LockFrom(failures: seq<int>, limit: nat, lockout: int, now: int): Option<int> {
    if |failures| < limit || failures == [] then None
    else
      var until := Latest(failures).value + lockout;
      if until > now then Some(until) else None
  }

  function LockedUntil(attempts: seq<Attempt>, kind: string, ip: string, account: Option<string>, s: Settings,
                       now: int): Option<int>
  {
    var first := SubjectLockedUntil(attempts, Ip(kind, ip), s, now);
    if account.None? || account == Some("") then first
    else
      var second := SubjectLockedUntil(attempts, Account(kind, account.value), s, now);
      if first.Some? && second.Some? then Later(first, second.value) else if first.Some? then first else second
  }

  /** The row an attempt leaves: address and account are cut to the columns. */
  function Recorded(kind: string, ip: string, account: Option<string>, success: bool, now: int): Attempt {
    Attempt(kind, Cut(ip, IP_SIZE),
            if account.None? || account == Some("") then None else Some(Cut(account.value, ACCOUNT_SIZE)), success, now)
  }

  /** The lock finds an attempt again exactly when nothing was cut off. */
  lemma FoundExactly(kind: string, ip: string, account: string, success: bool, now: int)
    ensures Of(Recorded(kind, ip, Some(account), success, now), Ip(kind, ip)) <==> |ip| <= IP_SIZE
    ensures Of(Recorded(kind, ip, Some(account), success, now), Account(kind, account))
        <==> 0 < |account| <= ACCOUNT_SIZE
  {
    assert |Cut(ip, IP_SIZE)| <= IP_SIZE;
  }

  /** Shorter than its column: no longer input can be cut to it. */
  predicate Fits(subject: Subject) {
    if subject.Ip? then |subject.ip| < IP_SIZE else 0 < |subject.account| < ACCOUNT_SIZE
  }

  // Attempts in order ---------------------------------------------------------------------------------------

  predicate Ordered(attempts: seq<Attempt>) {
    forall i, j :: 0 <= i < j < |attempts| ==> attempts[i].at <= attempts[j].at
  }

  predicate UpTo(attempts: seq<Attempt>, now: int) {
    forall i :: 0 <= i < |attempts| ==> attempts[i].at <= now
  }

  /** Every attempt of this subject was made while it was not locked. */
  predicate Guarded(attempts: seq<Attempt>, subject: Subject, s: Settings) {
    forall i: nat :: i < |attempts| ==> MadeUnlocked(attempts, subject, s, i)
  }

  predicate MadeUnlocked(attempts: seq<Attempt>, subject: Subject, s: Settings, i: nat)
    requires i < |attempts|
  {
    Of(attempts[i], subject) ==> SubjectLockedUntil(attempts[..i], subject, s, attempts[i].at).None?
  }

  lemma GuardedPrefix(attempts: seq<Attempt>, subject: Subject, s: Settings)
    requires attempts != [] && Guarded(attempts, subject, s)
    ensures Guarded(attempts[..|attempts| - 1], subject, s)
  {
    var before := attempts[..|attempts| - 1];
    forall i: nat | i < |before| ensures MadeUnlocked(before, subject, s, i) {
      assert MadeUnlocked(attempts, subject, s, i);
      assert before[..i] == attempts[..i];
    }
  }

  lemma LastMadeUnlocked(attempts: seq<Attempt>, subject: Subject, s: Settings)
    requires attempts != [] && Guarded(attempts, subject, s) && Of(attempts[|attempts| - 1], subject)
    ensures SubjectLockedUntil(attempts[..|attempts| - 1], subject, s, attempts[|attempts| - 1].at).None?
  {
    assert MadeUnlocked(attempts, subject, s, |attempts| - 1);
  }

  lemma OrderedPrefix(attempts: seq<Attempt>)
    requires attempts != [] && Ordered(attempts)
    ensures Ordered(attempts[..|attempts| - 1])
    ensures |attempts| > 1 ==> attempts[|attempts| - 2].at <= attempts[|attempts| - 1].at
  {
  }

  // How many failures get through ---------------------------------------------------------------------------

  lemma {:induction false} FailuresAll(attempts: seq<Attempt>, subject: Subject, since: int, k: nat)
    requires k < |Failures(attempts, subject, since)|
    ensures Failures(attempts, subject, since)[k] > since
    ensures Failures(attempts, subject, since)[k] <= Latest(Failures(attempts, subject, since)).value
  {
    var before := attempts[..|attempts| - 1];
    LatestBounds(Failures(attempts, subject, since), k);
    if k < |Failures(before, subject, since)| {
      FailuresAll(before, subject, since, k);
    }
  }

  lemma {:induction false} LatestBounds(times: seq<int>, k: nat)
    requires k < |times|
    ensures Latest(times).Some? && times[k] <= Latest(times).value
  {
    if k < |times| - 1 {
      LatestBounds(times[..|times| - 1], k);
    }
  }

  /** At least as many times, and one at least as late. */
  predicate Covers(more: seq<int>, fewer: seq<int>) {
    && |fewer| <= |more|
    && (fewer != [] ==> Latest(fewer).Some? && Latest(more).Some? && Latest(fewer).value <= Latest(more).value)
  }

  lemma CoversNext(more: seq<int>, fewer: seq<int>, t: int)
    requires Covers(more, fewer)
    ensures Covers(more + [t], fewer) && Covers(more + [t], fewer + [t])
  {
    LatestNext(more, t);
    LatestNext(fewer, t);
    assert fewer == [] ==> Latest(fewer) == None;
  }

  /** A longer look back counts at least as many failures and sees one at least as late. */
  lemma {:induction false} LongerLook(attempts: seq<Attempt>, subject: Subject, early: int, late: int)
    requires early <= late
    ensures Covers(Failures(attempts, subject, early), Failures(attempts, subject, late))
  {
    if attempts != [] {
      var n := |attempts| - 1;
      LongerLook(attempts[..n], subject, early, late);
      CoversNext(Failures(attempts[..n], subject, early), Failures(attempts[..n], subject, late), attempts[n].at);
    }
  }

  lemma LatestNext(times: seq<int>, t: int)
    ensures Latest(times + [t]) == Later(Latest(times), t)
  {
    assert (times + [t])[..|times|] == times;
  }

  /** The last time is the latest, and none is later than bound. */
  predicate EndsBy(times: seq<int>, bound: int) {
    times != [] ==> Latest(times) == Some(times[|times| - 1]) && times[|times| - 1] <= bound
  }

  lemma EndsNext(times: seq<int>, bound: int, t: int)
    requires EndsBy(times, bound) && bound <= t
    ensures EndsBy(times + [t], t) && EndsBy(times, t)
  {
    LatestNext(times, t);
  }

  lemma {:induction false} InOrder(attempts: seq<Attempt>, subject: Subject, since: int)
    requires Ordered(attempts)
    ensures attempts != [] ==> EndsBy(Failures(attempts, subject, since), attempts[|attempts| - 1].at)
  {
    if |attempts| == 1 {
      assert Failures(attempts[..0], subject, since) == [];
      EndsNext([], attempts[0].at, attempts[0].at);
    } else if |attempts| > 1 {
      var n := |attempts| - 1;
      OrderedPrefix(attempts);
      InOrder(attempts[..n], subject, since);
      EndsNext(Failures(attempts[..n], subject, since), attempts[n - 1].at, attempts[n].at);
    }
  }

  /** No success after a moment x, and everything within a window after it: then every check in that window looks back
      to x or further. */
  lemma {:induction false} SuccessBefore(attempts: seq<Attempt>, subject: Subject, x: int)
    requires forall i :: 0 <= i < |attempts| && Of(attempts[i], subject) && attempts[i].success ==> attempts[i].at <= x
    ensures LastSuccess(attempts, subject).Some? ==> LastSuccess(attempts, subject).value <= x
  {
    if attempts != [] {
      SuccessBefore(attempts[..|attempts| - 1], subject, x);
    }
  }

  ghost predicate InWindow(attempts: seq<Attempt>, subject: Subject, x: int, s: Settings) {
    && UpTo(attempts, x + s.window)
    && forall i :: 0 <= i < |attempts| && Of(attempts[i], subject) && attempts[i].success ==> attempts[i].at <= x
  }

  /** At the limit the next failure has to wait out a full lock. */
  lemma OneMoreWaits(before: seq<Attempt>, subject: Subject, x: int, s: Settings, now: int)
    requires ValidSettings(s) && Ordered(before) && InWindow(before, subject, x, s) && now <= x + s.window
    requires SubjectLockedUntil(before, subject, s, now).None?
    requires |Failures(before, subject, x)| >= Limit(subject, s)
    ensures Failures(before, subject, x) != []
    ensures now >= Failures(before, subject, x)[|Failures(before, subject, x)| - 1] + s.lockout
  {
    SuccessBefore(before, subject, x);
    LongerLook(before, subject, Since(before, subject, s, now), x);
    InOrder(before, subject, x);
  }

  ghost predicate Waited(failures: seq<int>, limit: nat, lockout: int) {
    0 < limit <= |failures| ==> failures[|failures| - 1] >= failures[0] + (|failures| - limit) * lockout
  }

  lemma WaitedNext(failures: seq<int>, t: int, limit: nat, lockout: int)
    requires Waited(failures, limit, lockout) && (failures != [] ==> failures[0] <= t)
    requires 0 < limit <= |failures| ==> t >= failures[|failures| - 1] + lockout
    ensures Waited(failures + [t], limit, lockout)
  {
    if 0 < limit <= |failures| {
      var k := |failures| - limit;
      assert (k + 1) * lockout == k * lockout + lockout;
    }
  }

  /** Beyond the limit each further failure waits out a full lock after the one before. */
  lemma {:induction false} FailuresWait(attempts: seq<Attempt>, subject: Subject, x: int, s: Settings)
    requires ValidSettings(s) && Ordered(attempts) && Guarded(attempts, subject, s) && InWindow(attempts, subject, x, s)
    ensures Waited(Failures(attempts, subject, x), Limit(subject, s), s.lockout)
  {
    if attempts != [] {
      var n := |attempts| - 1;
      var before, last := attempts[..n], attempts[n];
      GuardedPrefix(attempts, subject, s);
      OrderedPrefix(attempts);
      FailuresWait(before, subject, x, s);
      var failures := Failures(before, subject, x);
      if Of(last, subject) && !last.success && last.at > x {
        FirstBefore(attempts, subject, x);
        if |failures| >= Limit(subject, s) {
          LastMadeUnlocked(attempts, subject, s);
          OneMoreWaits(before, subject, x, s, last.at);
        }
        WaitedNext(failures, last.at, Limit(subject, s), s.lockout);
      }
    }
  }

  lemma FirstBefore(attempts: seq<Attempt>, subject: Subject, x: int)
    requires Ordered(attempts) && Failures(attempts, subject, x) != []
    ensures Failures(attempts, subject, x)[0] <= Failures(attempts, subject, x)[|Failures(attempts, subject, x)| - 1]
  {
    InOrder(attempts, subject, x);
    FailuresAll(attempts, subject, x, 0);
  }

  lemma AtLeastOne(k: int, lockout: int)
    requires k >= 1 && lockout >= 0
    ensures k * lockout >= lockout
  {
    assert k * lockout == (k - 1) * lockout + lockout;
  }

  /** In any window without a success the failures beyond the limit take less than the window in lock times. */
  lemma LockBound(attempts: seq<Attempt>, subject: Subject, x: int, s: Settings)
    requires ValidSettings(s) && Ordered(attempts) && Guarded(attempts, subject, s) && InWindow(attempts, subject, x, s)
    ensures var m, limit := |Failures(attempts, subject, x)|, Limit(subject, s);
            && (m > limit ==> (m - limit) * s.lockout < s.window)
            && (s.window <= s.lockout ==> m <= limit)
  {
    if |Failures(attempts, subject, x)| > Limit(subject, s) {
      FailuresWait(attempts, subject, x, s);
      WithinWindow(attempts, subject, x, s.window);
      SpanBelow(Failures(attempts, subject, x), Limit(subject, s), s.lockout, s.window);
    }
  }

  lemma WithinWindow(attempts: seq<Attempt>, subject: Subject, x: int, window: int)
    requires Ordered(attempts) && UpTo(attempts, x + window) && Failures(attempts, subject, x) != []
    ensures Failures(attempts, subject, x)[|Failures(attempts, subject, x)| - 1]
          < Failures(attempts, subject, x)[0] + window
  {
    InOrder(attempts, subject, x);
    FailuresAll(attempts, subject, x, 0);
  }

  lemma SpanBelow(failures: seq<int>, limit: nat, lockout: int, window: int)
    requires 0 < limit < |failures| && lockout >= 0 && Waited(failures, limit, lockout)
    requires failures[|failures| - 1] < failures[0] + window
    ensures (|failures| - limit) * lockout < window && lockout < window
  {
    AtLeastOne(|failures| - limit, lockout);
  }

  /** The same for the attempts up to any moment of a longer history. */
  lemma EveryWindow(history: seq<Attempt>, n: nat, subject: Subject, x: int, s: Settings)
    requires ValidSettings(s) && Ordered(history) && Guarded(history, subject, s)
    requires n <= |history| && InWindow(history[..n], subject, x, s)
    ensures var m, limit := |Failures(history[..n], subject, x)|, Limit(subject, s);
            && (m > limit ==> (m - limit) * s.lockout < s.window)
            && (s.window <= s.lockout ==> m <= limit)
  {
    var part := history[..n];
    assert Guarded(part, subject, s) by {
      forall i: nat | i < n ensures MadeUnlocked(part, subject, s, i) {
        assert MadeUnlocked(history, subject, s, i);
        assert part[..i] == history[..i];
      }
    }
    assert Ordered(part);
    LockBound(part, subject, x, s);
  }

  // How long a lock lasts --------------------------------------------------------------------------------------

  /** As many failures as the limit are counted at a moment. */
  predicate Reached(attempts: seq<Attempt>, subject: Subject, s: Settings, now: int) {
    var failures := Failures(attempts, subject, Since(attempts, subject, s, now));
    |failures| >= Limit(subject, s) && failures != []
  }

  predicate EndsInFailure(attempts: seq<Attempt>, subject: Subject, last: int) {
    && Ordered(attempts) && attempts != []
    && Of(attempts[|attempts| - 1], subject) && !attempts[|attempts| - 1].success && attempts[|attempts| - 1].at == last
  }

  /** The lock holds for the whole lockout after the last failure exactly when, at its last moment, as many failures as
      the limit are still in the window; otherwise it ends early. */
  lemma FullLockExactly(attempts: seq<Attempt>, subject: Subject, s: Settings, last: int)
    requires ValidSettings(s) && EndsInFailure(attempts, subject, last)
    ensures (forall now :: last <= now < last + s.lockout ==>
               SubjectLockedUntil(attempts, subject, s, now) == Some(last + s.lockout))
        <==> Reached(attempts, subject, s, last + s.lockout - 1)
  {
    var end := last + s.lockout - 1;
    EndsLatest(attempts, subject, last);
    LockedExactly(attempts, subject, s, last, end);
    forall now | last <= now < last + s.lockout && Reached(attempts, subject, s, end)
      ensures SubjectLockedUntil(attempts, subject, s, now) == Some(last + s.lockout)
    {
      ReachedBefore(attempts, subject, s, now, end);
      LockedExactly(attempts, subject, s, last, now);
    }
  }

  lemma SinceGrows(attempts: seq<Attempt>, subject: Subject, s: Settings, now: int, later: int)
    requires now <= later
    ensures Since(attempts, subject, s, now) <= Since(attempts, subject, s, later)
  {
  }

  lemma ReachedBefore(attempts: seq<Attempt>, subject: Subject, s: Settings, now: int, later: int)
    requires now <= later && Reached(attempts, subject, s, later)
    ensures Reached(attempts, subject, s, now)
  {
    SinceGrows(attempts, subject, s, now, later);
    LongerLook(attempts, subject, Since(attempts, subject, s, now), Since(attempts, subject, s, later));
  }

  /** Whatever failures are looked at, the latest of them was then. */
  ghost predicate AlwaysLatest(attempts: seq<Attempt>, subject: Subject, last: int) {
    forall since :: LatestAfter(attempts, subject, since, last)
  }

  predicate LatestAfter(attempts: seq<Attempt>, subject: Subject, since: int, last: int) {
    LatestIs(Failures(attempts, subject, since), last)
  }

  predicate LatestIs(times: seq<int>, last: int) { times != [] ==> Latest(times) == Some(last) }

  lemma EndsLatest(attempts: seq<Attempt>, subject: Subject, last: int)
    requires EndsInFailure(attempts, subject, last)
    ensures AlwaysLatest(attempts, subject, last)
  {
    forall since ensures LatestAfter(attempts, subject, since, last) {
      if Failures(attempts, subject, since) != [] {
        LatestIsLast(attempts, subject, since);
      }
    }
  }

  /** At a moment before the end of the lockout it is locked exactly when the limit is reached then. */
  lemma LockedExactly(attempts: seq<Attempt>, subject: Subject, s: Settings, last: int, now: int)
    requires AlwaysLatest(attempts, subject, last) && now < last + s.lockout
    ensures SubjectLockedUntil(attempts, subject, s, now)
         == if Reached(attempts, subject, s, now) then Some(last + s.lockout) else None
  {
    var since := Since(attempts, subject, s, now);
    assert LatestAfter(attempts, subject, since, last);
    LockIs(Failures(attempts, subject, since), Limit(subject, s), s.lockout, now, last);
  }

  lemma LockIs(failures: seq<int>, limit: nat, lockout: int, now: int, last: int)
    requires now < last + lockout && LatestIs(failures, last)
    ensures LockFrom(failures, limit, lockout, now)
         == if |failures| >= limit && failures != [] then Some(last + lockout) else None
  {
  }

  lemma LatestIsLast(attempts: seq<Attempt>, subject: Subject, since: int)
    requires Ordered(attempts) && attempts != [] && Failures(attempts, subject, since) != []
    requires Of(attempts[|attempts| - 1], subject) && !attempts[|attempts| - 1].success
    ensures Latest(Failures(attempts, subject, since)) == Some(attempts[|attempts| - 1].at)
  {
    InOrder(attempts, subject, since);
    var n := |attempts| - 1;
    if attempts[n].at <= since {
      FailuresAll(attempts, subject, since, 0);
      assert false;
    }
  }

  /** With a window shorter than the lockout a single failure locks for the window only: when it has passed, the address
      is free although the lockout is not over. Nothing but allowed attempts led there. */
  lemma LockEndsEarly() returns (attempts: seq<Attempt>, subject: Subject, s: Settings, last: int, now: int)
    ensures ValidSettings(s) && EndsInFailure(attempts, subject, last) && Guarded(attempts, subject, s)
    ensures SubjectLockedUntil(attempts, subject, s, last) == Some(last + s.lockout)
    ensures last < now < last + s.lockout && SubjectLockedUntil(attempts, subject, s, now) == None
  {
    s := Settings(60, 900, 1, 1, 1);
    subject, last, now := Ip("login", "192.0.2.1"), 0, 60;
    var failure := Attempt("login", "192.0.2.1", None, false, last);
    attempts := [failure];
    OneFailure(failure, subject, -60);
    OneFailure(failure, subject, 0);
    assert Latest([0]) == Some(0) by { LatestNext([], 0); }
    assert MadeUnlocked(attempts, subject, s, 0) by {
      assert attempts[..0] == [];
    }
  }

  lemma OneFailure(failure: Attempt, subject: Subject, since: int)
    requires Of(failure, subject) && !failure.success
    ensures Failures([failure], subject, since) == if failure.at > since then [failure.at] else []
    ensures LastSuccess([failure], subject) == None
  {
    assert [failure][..0] == [];
  }

  /** Time alone never locks. */
  lemma StaysUnlocked(attempts: seq<Attempt>, subject: Subject, s: Settings, now: int, later: int)
    requires SubjectLockedUntil(attempts, subject, s, now).None? && now <= later
    ensures SubjectLockedUntil(attempts, subject, s, later).None?
  {
    LongerLook(attempts, subject, Since(attempts, subject, s, now), Since(attempts, subject, s, later));
  }

  // Removing old attempts -----------------------------------------------------------------------------------------

  function Kept(attempts: seq<Attempt>, cutoff: int): seq<Attempt> {
    if attempts == [] then []
    else
      var last := attempts[|attempts| - 1];
      var before := Kept(attempts[..|attempts| - 1], cutoff);
      if last.at < cutoff then before else before + [last]
  }

  lemma Appended(before: seq<Attempt>, last: Attempt)
    ensures (before + [last])[..|before + [last]| - 1] == before
  {
  }

  lemma {:induction false} KeptFailures(attempts: seq<Attempt>, subject: Subject, cutoff: int, since: int)
    requires cutoff <= since + 1
    ensures Failures(Kept(attempts, cutoff), subject, since) == Failures(attempts, subject, since)
  {
    if attempts != [] {
      var n := |attempts| - 1;
      KeptFailures(attempts[..n], subject, cutoff, since);
      Appended(Kept(attempts[..n], cutoff), attempts[n]);
    }
  }

  /** A success that is gone was before the cutoff, so it is not what a check starts from. */
  lemma {:induction false} KeptSuccess(attempts: seq<Attempt>, subject: Subject, cutoff: int, start: int)
    requires cutoff <= start
    ensures var all, left := LastSuccess(attempts, subject), LastSuccess(Kept(attempts, cutoff), subject);
            AtLeast(all, start) == AtLeast(left, start)
  {
    if attempts != [] {
      var n := |attempts| - 1;
      KeptSuccess(attempts[..n], subject, cutoff, start);
      Appended(Kept(attempts[..n], cutoff), attempts[n]);
    }
  }

  /** Removing attempts older than the window allows at that moment changes no answer then or later. */
  lemma PurgeInvisible(attempts: seq<Attempt>, subject: Subject, s: Settings, cutoff: int, now: int)
    requires cutoff <= now - s.window
    ensures SubjectLockedUntil(Kept(attempts, cutoff), subject, s, now) == SubjectLockedUntil(attempts, subject, s, now)
  {
    KeptSuccess(attempts, subject, cutoff, now - s.window);
    KeptFailures(attempts, subject, cutoff, Since(attempts, subject, s, now));
  }

  lemma {:induction false} KeptTwice(attempts: seq<Attempt>, a: int, b: int)
    requires a <= b
    ensures Kept(Kept(attempts, a), b) == Kept(attempts, b)
  {
    if attempts != [] {
      var n := |attempts| - 1;
      KeptTwice(attempts[..n], a, b);
      Appended(Kept(attempts[..n], a), attempts[n]);
    }
  }

  // The stored attempts ----------------------------------------------------------------------------------------------

  class Guard {
    const settings: Settings
    var attempts: seq<Attempt>          // the table
    ghost var history: seq<Attempt>     // everything ever recorded
    ghost var cutoff: int               // all attempts before it are removed
    ghost var clock: int

    ghost predicate Valid()
      reads this
    {
      && ValidSettings(settings)
      && attempts == Kept(history, cutoff) && cutoff <= clock - settings.window
      && Ordered(history) && UpTo(history, clock)
      && forall subject :: Fits(subject) ==> Guarded(history, subject, settings)
    }

    constructor (settings: Settings, now: int)
      requires ValidSettings(settings)
      ensures Valid() && history == [] && this.settings == settings && clock == now
    {
      this.settings, attempts := settings, [];
      history, clock, cutoff := [], now, now - settings.window;
    }

    method RecordAttempt(kind: string, ip: string, account: Option<string>, success: bool, now: int)
      modifies this`attempts
      ensures attempts == old(attempts) + [Recorded(kind, ip, account, success, now)]
    {
      attempts := attempts + [Recorded(kind, ip, account, success, now)];
    }

    /** A login: turned away during a lock, otherwise checked and recorded. The answer is the one the full history
        gives, whatever has been removed. */
    method TryLogin(kind: string, ip: string, account: Option<string>, correct: bool, asked: int, checked: int)
      returns (until: Option<int>)
      requires Valid() && clock <= asked <= checked
      modifies this
      ensures Valid() && clock == checked && cutoff == old(cutoff)
      ensures until == LockedUntil(old(history), kind, ip, account, settings, asked)
      ensures history == if until.Some? then old(history)
                         else old(history) + [Recorded(kind, ip, account, correct, checked)]
    {
      until := LockedUntil(attempts, kind, ip, account, settings, asked);
      PurgeHidesNothing(history, kind, ip, account, settings, cutoff, asked);
      clock := checked;
      if until.None? {
        var a := Recorded(kind, ip, account, correct, checked);
        RecordAttempt(kind, ip, account, correct, checked);
        StillGuarded(history, a, kind, ip, account, settings, asked, checked);
        KeptNext(history, a, cutoff);
        history := history + [a];
      }
    }

    /** Remove the attempts older than the configured number of days. */
    method Purge(now: int)
      requires Valid() && clock <= now
      modifies this
      ensures Valid() && history == old(history) && clock == now
      ensures attempts == Kept(old(attempts), now - DAY * settings.days)
    {
      var limit := now - DAY * settings.days;
      attempts := RemoveBefore(attempts, limit);
      clock := now;
      if cutoff <= limit {
        KeptTwice(history, cutoff, limit);
        cutoff := limit;
      } else {
        KeptAgain(history, cutoff, limit);
      }
    }
  }

  /** DELETE with a condition on the time. */
  method RemoveBefore(attempts: seq<Attempt>, limit: int) returns (left: seq<Attempt>)
    ensures left == Kept(attempts, limit)
  {
    left := [];
    for i := 0 to |attempts|
      invariant left == Kept(attempts[..i], limit)
    {
      assert attempts[..i + 1][..i] == attempts[..i];
      if attempts[i].at >= limit {
        left := left + [attempts[i]];
      }
    }
    assert attempts[..|attempts|] == attempts;
  }

  lemma {:induction false} KeptAgain(attempts: seq<Attempt>, a: int, b: int)
    requires b <= a
    ensures Kept(Kept(attempts, a), b) == Kept(attempts, a)
  {
    if attempts != [] {
      var n := |attempts| - 1;
      KeptAgain(attempts[..n], a, b);
      Appended(Kept(attempts[..n], a), attempts[n]);
    }
  }

  lemma PurgeHidesNothing(history: seq<Attempt>, kind: string, ip: string, account: Option<string>, s: Settings,
                          cutoff: int, now: int)
    requires cutoff <= now - s.window
    ensures LockedUntil(Kept(history, cutoff), kind, ip, account, s, now)
         == LockedUntil(history, kind, ip, account, s, now)
  {
    PurgeInvisible(history, Ip(kind, ip), s, cutoff, now);
    if account.Some? {
      PurgeInvisible(history, Account(kind, account.value), s, cutoff, now);
    }
  }

  lemma KeptNext(history: seq<Attempt>, a: Attempt, cutoff: int)
    requires Ordered(history) && UpTo(history, a.at) && cutoff <= a.at
    ensures Kept(history + [a], cutoff) == Kept(history, cutoff) + [a]
    ensures Ordered(history + [a]) && UpTo(history + [a], a.at)
  {
    Appended(history, a);
  }

  /** An attempt that was let through keeps every subject that fits guarded. */
  lemma StillGuarded(history: seq<Attempt>, a: Attempt, kind: string, ip: string, account: Option<string>, s: Settings,
                     asked: int, checked: int)
    requires forall subject :: Fits(subject) ==> Guarded(history, subject, s)
    requires LockedUntil(history, kind, ip, account, s, asked).None? && asked <= checked
    requires a == Recorded(kind, ip, account, a.success, checked)
    ensures forall subject :: Fits(subject) ==> Guarded(history + [a], subject, s)
  {
    forall subject | Fits(subject) ensures Guarded(history + [a], subject, s) {
      var longer := history + [a];
      assert Guarded(history, subject, s);
      forall i: nat | i < |longer| ensures MadeUnlocked(longer, subject, s, i) {
        if i < |history| {
          assert MadeUnlocked(history, subject, s, i);
          assert longer[..i] == history[..i];
        } else if Of(a, subject) {
          assert longer[..i] == history;
          CutFits(kind, ip, account, a, subject);
          StaysUnlocked(history, subject, s, asked, checked);
        }
      }
    }
  }

  lemma CutFits(kind: string, ip: string, account: Option<string>, a: Attempt, subject: Subject)
    requires Fits(subject) && Of(a, subject) && a == Recorded(kind, ip, account, a.success, a.at)
    ensures subject == Ip(kind, ip) || (account.Some? && account != Some("") && subject == Account(kind, account.value))
  {
  }
}
