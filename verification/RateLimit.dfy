/** The hourly limits of the mail reception: a sliding window over lists that are pruned as they are read.
    Times are whole nanoseconds of a clock that never runs backwards. */
module RateLimit {

  const WINDOW := 3_600_000_000_000
  const SECOND := 1_000_000_000

  /** One request under the limit in force: the clock is read once to prune and count, and again to store. */
  datatype Request = Request(now: int, stored: int, limit: int)

  predicate Ordered(requests: seq<Request>) {
    && (forall i :: 0 <= i < |requests| ==> requests[i].now <= requests[i].stored)
    && (forall i, j :: 0 <= i < j < |requests| ==> requests[i].stored <= requests[j].now)
  }

  // Counting over everything ever accepted ------------------------------------------------------------------

  function CountFrom(times: seq<int>, from: int): nat {
    if times == [] then 0
    else CountFrom(times[..|times| - 1], from) + if from <= times[|times| - 1] then 1 else 0
  }

  /** How many times lie in a closed window. */
  function CountIn(times: seq<int>, from: int, to: int): nat {
    if times == [] then 0
    else CountIn(times[..|times| - 1], from, to) + if from <= times[|times| - 1] <= to then 1 else 0
  }

  /** Accept a request when fewer than its limit were accepted within the window before it. */
  function Accepted(requests: seq<Request>): seq<int> {
    if requests == [] then []
    else
      var before, r := Accepted(requests[..|requests| - 1]), requests[|requests| - 1];
      if CountFrom(before, r.now - WINDOW) < r.limit then before + [r.stored] else before
  }

  function Places(times: seq<int>, ok: int -> bool): set<nat> { set i: nat | i < |times| && ok(times[i]) }

  lemma PlacesNext(times: seq<int>, front: seq<int>, ok: int -> bool)
    requires times != [] && front == times[..|times| - 1]
    ensures |Places(times, ok)| == |Places(front, ok)| + if ok(times[|times| - 1]) then 1 else 0
  {
    var n := |times| - 1;
    assert Places(times, ok) == Places(front, ok) + if ok(times[n]) then {n} else {};
    assert n !in Places(front, ok);
  }

  /** The counts are numbers of entries: of a closed window, and from a moment on. */
  lemma {:induction false} CountExactly(times: seq<int>, from: int, to: int)
    ensures CountIn(times, from, to) == |Places(times, t => from <= t <= to)|
    ensures CountFrom(times, from) == |Places(times, t => from <= t)|
  {
    if times == [] {
      assert Places(times, t => from <= t <= to) == {} && Places(times, t => from <= t) == {};
    } else {
      var front := times[..|times| - 1];
      CountExactly(front, from, to);
      PlacesNext(times, front, t => from <= t <= to);
      PlacesNext(times, front, t => from <= t);
    }
  }

  lemma {:induction false} CountShrinks(times: seq<int>, early: int, late: int, to: int)
    requires early <= late
    ensures CountIn(times, late, to) <= CountFrom(times, late) <= CountFrom(times, early)
  {
    if times != [] {
      CountShrinks(times[..|times| - 1], early, late, to);
    }
  }

  predicate UpTo(times: seq<int>, now: int) {
    forall i :: 0 <= i < |times| ==> times[i] <= now
  }

  lemma {:induction false} CountToNow(times: seq<int>, from: int, now: int)
    requires UpTo(times, now)
    ensures CountFrom(times, from) == CountIn(times, from, now)
  {
    if times != [] {
      CountToNow(times[..|times| - 1], from, now);
    }
  }

  lemma OneMoreIn(times: seq<int>, t: int, from: int, to: int)
    ensures CountIn(times + [t], from, to) == CountIn(times, from, to) + if from <= t <= to then 1 else 0
  {
    assert (times + [t])[..|times|] == times;
  }

  lemma {:induction false} AcceptedUpTo(requests: seq<Request>)
    requires Ordered(requests)
    ensures requests != [] ==> UpTo(Accepted(requests), requests[|requests| - 1].stored)
  {
    if requests != [] {
      var n := |requests| - 1;
      var before := Accepted(requests[..n]);
      OrderedPrefix(requests);
      AcceptedUpTo(requests[..n]);
      if n == 0 {
        assert before == [];
      } else {
        UpToNext(before, requests[n - 1].stored, requests[n].now);
      }
      UpToNext(before, requests[n].now, requests[n].stored);
    }
  }

  lemma OrderedPrefix(requests: seq<Request>)
    requires requests != [] && Ordered(requests)
    ensures Ordered(requests[..|requests| - 1])
    ensures |requests| > 1 ==> requests[|requests| - 2].stored <= requests[|requests| - 1].now
    ensures requests[|requests| - 1].now <= requests[|requests| - 1].stored
  {
  }

  lemma UpToNext(times: seq<int>, now: int, t: int)
    requires UpTo(times, now) && now <= t
    ensures UpTo(times, t) && UpTo(times + [t], t)
  {
  }

  lemma StaysBelow(before: seq<int>, r: Request, limit: int, x: int)
    requires CountFrom(before, r.now - WINDOW) < r.limit <= limit && r.now <= r.stored
    requires CountIn(before, x, x + WINDOW) <= limit
    ensures CountIn(before + [r.stored], x, x + WINDOW) <= limit
  {
    OneMoreIn(before, r.stored, x, x + WINDOW);
    if r.stored <= x + WINDOW {
      CountShrinks(before, r.now - WINDOW, x, x + WINDOW);
    }
  }

  predicate LimitedBy(requests: seq<Request>, limit: int) {
    forall i :: 0 <= i < |requests| ==> requests[i].limit <= limit
  }

  lemma LimitedPrefix(requests: seq<Request>, limit: int)
    requires requests != [] && LimitedBy(requests, limit)
    ensures LimitedBy(requests[..|requests| - 1], limit) && requests[|requests| - 1].limit <= limit
  {
  }

  /** Any window of an hour, wherever it starts, holds at most the largest limit of the requests. */
  lemma {:induction false} WindowBound(requests: seq<Request>, limit: int, x: int)
    requires Ordered(requests) && LimitedBy(requests, limit)
    ensures CountIn(Accepted(requests), x, x + 3600 * SECOND) <= if limit > 0 then limit else 0
  {
    if requests != [] {
      var n := |requests| - 1;
      var before, r := Accepted(requests[..n]), requests[n];
      OrderedPrefix(requests);
      LimitedPrefix(requests, limit);
      WindowBound(requests[..n], limit, x);
      if CountFrom(before, r.now - WINDOW) < r.limit {
        StaysBelow(before, r, limit, x);
      }
    }
  }

  /** A request is refused exactly when the window that ends at it is full. */
  lemma RefusedWhenFull(requests: seq<Request>, r: Request)
    requires Ordered(requests + [r])
    ensures Accepted(requests + [r]) == Accepted(requests)
        <==> CountIn(Accepted(requests), r.now - 3600 * SECOND, r.now) >= r.limit
  {
    var before := Accepted(requests);
    AcceptedBefore(requests, r);
    CountToNow(before, r.now - WINDOW, r.now);
    AcceptedNext(requests, r, before, CountFrom(before, r.now - WINDOW) < r.limit);
    assert |before + [r.stored]| != |before|;
  }

  lemma AcceptedBefore(requests: seq<Request>, r: Request)
    requires Ordered(requests + [r])
    ensures UpTo(Accepted(requests), r.now)
  {
    var all := requests + [r];
    OrderedPrefix(all);
    assert all[..|requests|] == requests;
    AcceptedUpTo(requests);
    if requests != [] {
      assert all[|requests| - 1] == requests[|requests| - 1];
      UpToNext(Accepted(requests), requests[|requests| - 1].stored, r.now);
    }
  }

  /** One more request, as the limiter answers it. */
  lemma AcceptedNext(requests: seq<Request>, r: Request, before: seq<int>, allowed: bool)
    requires before == Accepted(requests)
    requires allowed <==> CountFrom(before, r.now - WINDOW) < r.limit
    ensures Accepted(requests + [r]) == before + if allowed then [r.stored] else []
  {
    assert (requests + [r])[..|requests|] == requests;
  }

  // The lists the program keeps ---------------------------------------------------------------------------------

  predicate Sorted(times: seq<int>) {
    forall i, j :: 0 <= i < j < |times| ==> times[i] <= times[j]
  }

  /** The list holds the end of the history; what is missing was out of the window. */
  predicate Pruned(times: seq<int>, history: seq<int>, clock: int) {
    && Sorted(history) && UpTo(history, clock)
    && |times| <= |history| && times == history[|history| - |times|..]
    && forall i :: 0 <= i < |history| - |times| ==> history[i] < clock - WINDOW
  }

  lemma {:induction false} AllCounted(times: seq<int>, from: int)
    requires forall i :: 0 <= i < |times| ==> from <= times[i]
    ensures CountFrom(times, from) == |times|
  {
    if times != [] {
      AllCounted(times[..|times| - 1], from);
    }
  }

  lemma {:induction false} DropOld(times: seq<int>, k: nat, from: int)
    requires k <= |times| && forall i :: 0 <= i < k ==> times[i] < from
    ensures CountFrom(times, from) == CountFrom(times[k..], from)
  {
    if k < |times| {
      DropOld(times[..|times| - 1], k, from);
      assert times[..|times| - 1][k..] == times[k..][..|times| - k - 1];
    } else if k > 0 {
      DropOld(times[..|times| - 1], k - 1, from);
      assert times[..|times| - 1][k - 1..] == [];
    }
  }

  /** Drops as much of the front as lies below the cutoff, up to the first time that does not. */
  method PopExpired(times: seq<int>, cutoff: int) returns (left: seq<int>, ghost k: nat)
    ensures k <= |times| && left == times[k..] && (left != [] ==> cutoff <= left[0])
    ensures forall i :: 0 <= i < k ==> times[i] < cutoff
  {
    left, k := times, 0;
    while left != [] && left[0] < cutoff
      invariant k <= |times| && left == times[k..]
      invariant forall i :: 0 <= i < k ==> times[i] < cutoff
      decreases |left|
    {
      left, k := left[1..], k + 1;
    }
  }

  lemma PopKeeps(times: seq<int>, history: seq<int>, clock: int, k: nat, left: seq<int>, now: int)
    requires Pruned(times, history, clock) && clock <= now && k <= |times| && left == times[k..]
    requires forall i :: 0 <= i < k ==> times[i] < now - WINDOW
    requires left != [] ==> now - WINDOW <= left[0]
    ensures Pruned(left, history, now) && |left| == CountFrom(history, now - WINDOW)
  {
    var gone := |history| - |times|;
    AllOld(history, gone, times, k, now - WINDOW);
    SliceTwice(history, gone, k);
    LeftOver(history, gone + k, left, clock, now);
  }

  lemma SliceTwice(history: seq<int>, gone: nat, k: nat)
    requires gone + k <= |history|
    ensures history[gone..][k..] == history[gone + k..]
  {
  }

  lemma LeftOver(history: seq<int>, n: nat, left: seq<int>, clock: int, now: int)
    requires Sorted(history) && UpTo(history, clock) && clock <= now && n <= |history| && left == history[n..]
    requires forall i :: 0 <= i < n ==> history[i] < now - WINDOW
    requires left != [] ==> now - WINDOW <= left[0]
    ensures Pruned(left, history, now) && |left| == CountFrom(history, now - WINDOW)
  {
    NoneOld(history, n, now - WINDOW);
    DropOld(history, n, now - WINDOW);
    AllCounted(left, now - WINDOW);
  }

  lemma AllOld(history: seq<int>, gone: nat, times: seq<int>, k: nat, cutoff: int)
    requires gone <= |history| && times == history[gone..] && k <= |times|
    requires forall i :: 0 <= i < gone ==> history[i] < cutoff
    requires forall i :: 0 <= i < k ==> times[i] < cutoff
    ensures forall i :: 0 <= i < gone + k ==> history[i] < cutoff
  {
    forall i | gone <= i < gone + k ensures history[i] < cutoff {
      assert history[i] == times[i - gone];
    }
  }

  lemma NoneOld(history: seq<int>, k: nat, cutoff: int)
    requires Sorted(history) && k <= |history| && (k < |history| ==> cutoff <= history[k])
    ensures forall i :: 0 <= i < |history[k..]| ==> cutoff <= history[k..][i]
  {
    forall i | 0 <= i < |history[k..]| ensures cutoff <= history[k..][i] {
      assert history[k..][i] == history[k + i];
      assert i > 0 ==> history[k] <= history[k + i];
    }
  }

  lemma LaterPruned(times: seq<int>, history: seq<int>, clock: int, now: int)
    requires Pruned(times, history, clock) && clock <= now
    ensures Pruned(times, history, now)
  {
  }

  lemma StoreKeeps(times: seq<int>, history: seq<int>, now: int, t: int)
    requires Pruned(times, history, now) && now <= t
    ensures Pruned(times + [t], history + [t], t)
  {
    assert times + [t] == (history + [t])[|history| - |times|..];
  }

  /** The list of a key after these requests for it. */
  predicate Right(times: seq<int>, asked: seq<Request>, clock: int) {
    && Ordered(asked) && (asked != [] ==> asked[|asked| - 1].stored <= clock)
    && Pruned(times, Accepted(asked), clock)
  }

  lemma RightLater(times: seq<int>, asked: seq<Request>, clock: int, now: int)
    requires Right(times, asked, clock) && clock <= now
    ensures Right(times, asked, now)
  {
    LaterPruned(times, Accepted(asked), clock, now);
  }

  lemma RightPop(times: seq<int>, asked: seq<Request>, clock: int, k: nat, left: seq<int>, now: int)
    requires Right(times, asked, clock) && clock <= now && k <= |times| && left == times[k..]
    requires forall i :: 0 <= i < k ==> times[i] < now - WINDOW
    requires left != [] ==> now - WINDOW <= left[0]
    ensures Right(left, asked, now) && |left| == CountFrom(Accepted(asked), now - WINDOW)
  {
    PopKeeps(times, Accepted(asked), clock, k, left, now);
  }

  lemma OrderedNext(asked: seq<Request>, r: Request)
    requires Ordered(asked) && (asked != [] ==> asked[|asked| - 1].stored <= r.now) && r.now <= r.stored
    ensures Ordered(asked + [r])
  {
    var all := asked + [r];
    forall i, j | 0 <= i < j < |all| ensures all[i].stored <= all[j].now {
      if j == |asked| && i < |asked| - 1 {
        assert asked[i].stored <= asked[|asked| - 1].now <= asked[|asked| - 1].stored;
      }
    }
  }

  lemma RightNext(times: seq<int>, asked: seq<Request>, r: Request, allowed: bool)
    requires Right(times, asked, r.now) && r.now <= r.stored
    requires allowed <==> CountFrom(Accepted(asked), r.now - WINDOW) < r.limit
    ensures Right(if allowed then times + [r.stored] else times, asked + [r], r.stored)
  {
    OrderedNext(asked, r);
    AcceptedNext(asked, r, Accepted(asked), allowed);
    if allowed {
      StoreKeeps(times, Accepted(asked), r.now, r.stored);
    } else {
      LaterPruned(times, Accepted(asked), r.now, r.stored);
    }
  }

  /** A key that is not there has an empty list. */
  function TimesOf(times: map<string, seq<int>>, key: string): seq<int> {
    if key in times then times[key] else []
  }

  type Asked = string -> seq<Request>

  predicate RightAt(times: map<string, seq<int>>, asked: Asked, clock: int, key: string) {
    Right(TimesOf(times, key), asked(key), clock)
  }

  function AskedNext(asked: Asked, key: string, r: Request): Asked {
    other => if other == key then asked(key) + [r] else asked(other)
  }

  class Limiter {
    var times: map<string, seq<int>>
    ghost var asked: Asked   // every request so far, by key
    ghost var clock: int

    ghost predicate Valid()
      reads this
    {
      forall key :: RightAt(times, asked, clock, key)
    }

    /** What was let through for a key, ever. */
    ghost function Of(key: string): seq<int>
      reads this
    {
      Accepted(asked(key))
    }

    constructor (now: int)
      ensures Valid() && clock == now && forall key :: asked(key) == []
    {
      times, asked, clock := map[], _ => [], now;
    }

    /** After any requests, in whatever order of keys: no window of an hour holds more for a key than the largest limit
        it was asked for with. */
    lemma HourBound(key: string, limit: int, x: int)
      requires Valid() && LimitedBy(asked(key), limit)
      ensures CountIn(Of(key), x, x + 3600 * SECOND) <= if limit > 0 then limit else 0
    {
      assert RightAt(times, asked, clock, key);
      WindowBound(asked(key), limit, x);
    }

    /** Forget what is out of the window and count the rest: as many as the whole history holds in the window. */
    method CountWithinWindow(key: string, now: int) returns (count: nat)
      requires Valid() && key in times && clock <= now
      modifies this`times, this`clock
      ensures Valid() && clock == now && key in times
      ensures count == CountFrom(Of(key), now - WINDOW) && count == |times[key]|
    {
      var left; ghost var k;
      left, k := PopExpired(times[key], now - WINDOW);
      assert RightAt(times, asked, clock, key);
      RightPop(times[key], asked(key), clock, k, left, now);
      ghost var was, before := times, clock;
      times := times[key := left];
      clock := now;
      count := |left|;
      forall other ensures RightAt(times, asked, now, other) {
        if other == key {
          RightIs(times, asked, now, key, left, asked(key));
        } else {
          Later(was, asked, before, times, asked, now, other);
        }
      }
    }

    /** True when the key is under its limit; then the request counts from now on. */
    method RecordAndCheck(key: string, r: Request) returns (allowed: bool)
      requires Valid() && clock <= r.now <= r.stored
      modifies this
      ensures Valid() && clock == r.stored && asked == AskedNext(old(asked), key, r)
      ensures allowed <==> CountFrom(old(Of(key)), r.now - WINDOW) < r.limit
      ensures Of(key) == old(Of(key)) + if allowed then [r.stored] else []
      ensures forall other | other != key :: Of(other) == old(Of(other))
    {
      if key !in times {
        times := times[key := []];
        forall other ensures RightAt(times, asked, clock, other) {
          assert RightAt(old(times), asked, clock, other);
        }
      }
      var count := CountWithinWindow(key, r.now);
      allowed := count < r.limit;
      OneAsked(asked, key, r, allowed, key);
      Record(key, r, allowed);
    }

    method Record(key: string, r: Request, allowed: bool)
      requires Valid() && key in times && clock == r.now <= r.stored
      requires allowed <==> CountFrom(Of(key), r.now - WINDOW) < r.limit
      modifies this
      ensures Valid() && clock == r.stored && asked == AskedNext(old(asked), key, r)
    {
      ghost var was, before := times, asked;
      if allowed {
        times := times[key := times[key] + [r.stored]];
      }
      asked, clock := AskedNext(before, key, r), r.stored;
      RecordedRight(was, before, key, r, allowed, times, asked);
    }
  }

  /** The lists after a request, of its key and of any other. */
  lemma RecordedRight(times: map<string, seq<int>>, asked: Asked, key: string, r: Request, allowed: bool,
                      after: map<string, seq<int>>, more: Asked)
    requires key in times && r.now <= r.stored && forall other :: RightAt(times, asked, r.now, other)
    requires allowed <==> CountFrom(Accepted(asked(key)), r.now - WINDOW) < r.limit
    requires after == if allowed then times[key := times[key] + [r.stored]] else times
    requires more(key) == asked(key) + [r] && forall other :: other != key ==> more(other) == asked(other)
    ensures forall other :: RightAt(after, more, r.stored, other)
  {
    KeyRight(times, asked, key, r, allowed, after, more);
    forall other ensures RightAt(after, more, r.stored, other) {
      if other != key {
        assert RightAt(times, asked, r.now, other);
        Later(times, asked, r.now, after, more, r.stored, other);
      }
    }
  }

  lemma KeyRight(times: map<string, seq<int>>, asked: Asked, key: string, r: Request, allowed: bool,
                 after: map<string, seq<int>>, more: Asked)
    requires key in times && r.now <= r.stored && RightAt(times, asked, r.now, key)
    requires allowed <==> CountFrom(Accepted(asked(key)), r.now - WINDOW) < r.limit
    requires key in after && after[key] == if allowed then times[key] + [r.stored] else times[key]
    requires more(key) == asked(key) + [r]
    ensures RightAt(after, more, r.stored, key)
  {
    RightNext(times[key], asked(key), r, allowed);
    RightIs(after, more, r.stored, key, after[key], asked(key) + [r]);
  }

  lemma RightIs(times: map<string, seq<int>>, asked: Asked, clock: int, key: string, left: seq<int>, all: seq<Request>)
    requires Right(left, all, clock) && TimesOf(times, key) == left && asked(key) == all
    ensures RightAt(times, asked, clock, key)
  {
  }

  /** A key nothing was done with stays right as time passes. */
  lemma Later(times: map<string, seq<int>>, asked: Asked, clock: int, times1: map<string, seq<int>>, asked1: Asked,
              clock1: int, key: string)
    requires RightAt(times, asked, clock, key) && clock <= clock1
    requires TimesOf(times1, key) == TimesOf(times, key) && asked1(key) == asked(key)
    ensures RightAt(times1, asked1, clock1, key)
  {
    RightLater(TimesOf(times, key), asked(key), clock, clock1);
  }

  /** A request adds to its own key exactly when it is let through, and to no other. */
  lemma OneAsked(asked: Asked, key: string, r: Request, allowed: bool, other: string)
    requires allowed <==> CountFrom(Accepted(asked(key)), r.now - WINDOW) < r.limit
    ensures Accepted(AskedNext(asked, key, r)(other))
         == Accepted(asked(other)) + if other == key && allowed then [r.stored] else []
  {
    AcceptedNext(asked(key), r, Accepted(asked(key)), allowed);
  }

  // Both limits on one recipient ------------------------------------------------------------------------------------

  /** What the lookup of the address says; a refusal carries its own code. */
  datatype Lookup = Known | Refused(code: int)

  class Reception {
    const ips: Limiter
    const recipients: Limiter

    ghost predicate Valid()
      reads this, ips, recipients
    {
      ips != recipients && ips.Valid() && recipients.Valid()
    }

    constructor (now: int)
      ensures Valid() && (forall key :: ips.asked(key) == [] && recipients.asked(key) == [])
      ensures ips.clock == now && recipients.clock == now && fresh(ips) && fresh(recipients)
    {
      ips := new Limiter(now);
      recipients := new Limiter(now);
    }

    /** Whether a recipient is accepted, and the SMTP code. A recipient counts for its own limit exactly when it is
        accepted; for the limit of the sender it counts already when that limit allows it. */
    method ValidateRecipient(address: string, ip: string, size: int, maxSize: int, lookup: Lookup, first: Request,
                             second: Request)
      returns (accepted: bool, code: int)
      requires Valid() && ips.clock <= first.now <= first.stored && recipients.clock <= second.now <= second.stored
      modifies ips, recipients
      ensures Valid()
      ensures var free := CountFrom(old(ips.Of(ip)), first.now - WINDOW) < first.limit;
              var room := CountFrom(old(recipients.Of(address)), second.now - WINDOW) < second.limit;
              && (accepted <==> size <= maxSize && free && lookup.Known? && room)
              && (accepted ==> code == 250)
              && (size > maxSize ==> code == 552)
              && (size <= maxSize && (!free || (lookup.Known? && !room)) ==> code == 421)
              && (size <= maxSize && free && lookup.Refused? ==> code == lookup.code)
              && ips.asked == (if size > maxSize then old(ips.asked) else AskedNext(old(ips.asked), ip, first))
              && recipients.asked == (if size <= maxSize && free && lookup.Known?
                                      then AskedNext(old(recipients.asked), address, second) else old(recipients.asked))
              && ips.Of(ip) == old(ips.Of(ip)) + (if size <= maxSize && free then [first.stored] else [])
              && recipients.Of(address) == old(recipients.Of(address)) + (if accepted then [second.stored] else [])
      ensures forall other | other != ip :: ips.Of(other) == old(ips.Of(other))
      ensures forall other | other != address :: recipients.Of(other) == old(recipients.Of(other))
    {
      if size > maxSize {
        return false, 552;
      }
      var free := ips.RecordAndCheck(ip, first);
      if !free {
        return false, 421;
      }
      if lookup.Refused? {
        return false, lookup.code;
      }
      accepted := recipients.RecordAndCheck(address, second);
      code := if accepted then 250 else 421;
    }
  }
}
