/** The sliding-window limiter: pruned windows per key, swept now and then, against an unbounded log of
    every admitted hit. */
module RateLimiter {
  import opened Options

  type Time = real
  const WINDOW := 60.0
  const SWEEP_ABOVE := 1024

  datatype Key = Key(caller: string, bucket: string, prefix: string)

  // An admitted request, with the limit it was admitted under.
  datatype Hit = Hit(at: Time, limit: int)

  datatype Decision = Decision(allowed: bool, limit: int, remaining: int, retryAfter: real)

  function Max(a: real, b: real): real { if a < b then b else a }

  /*************** the reference: a log that is never pruned ***************/

  // The hits that still count at `cutoff`.  A hit exactly at the cutoff counts.
  function Recent(log: seq<Hit>, cutoff: Time): seq<Hit> {
    if log == [] then [] else if log[0].at < cutoff then Recent(log[1..], cutoff) else log
  }

  function Decide(log: seq<Hit>, now: Time, limit: int): Decision
    requires 0 < limit
  {
    var recent := Recent(log, now - WINDOW);
    if |recent| < limit then Decision(true, limit, limit - |recent| - 1, 0.0)
    else Decision(false, limit, 0, Max(1.0, recent[0].at + WINDOW - now))
  }

  function After(log: seq<Hit>, now: Time, limit: int): seq<Hit>
    requires 0 < limit
  {
    if Decide(log, now, limit).allowed then log + [Hit(now, limit)] else log
  }

  predicate Sorted(log: seq<Hit>) { forall i, j | 0 <= i < j < |log| :: log[i].at <= log[j].at }
  predicate UpTo(log: seq<Hit>, now: Time) { forall i | 0 <= i < |log| :: log[i].at <= now }

  lemma {:induction false} RecentIs(log: seq<Hit>, cutoff: Time) returns (n: nat)
    requires Sorted(log)
    ensures n <= |log| && Recent(log, cutoff) == log[n..]
    ensures forall i | 0 <= i < n :: log[i].at < cutoff
    ensures forall i | n <= i < |log| :: cutoff <= log[i].at
  {
    if log == [] {
      n := 0;
    } else if log[0].at < cutoff {
      var m := RecentIs(log[1..], cutoff);
      n := m + 1;
      forall i | 0 <= i < n ensures log[i].at < cutoff { if i > 0 { assert log[1..][i - 1] == log[i]; } }
      forall i | n <= i < |log| ensures cutoff <= log[i].at { assert log[1..][i - 1] == log[i]; }
    } else {
      n := 0;
      assert log[0..] == log;
    }
  }

  // Dropping hits below an earlier cutoff changes nothing.
  lemma {:induction false} RecentOfSuffix(log: seq<Hit>, n: nat, cutoff: Time)
    requires n <= |log| && forall i | 0 <= i < n :: log[i].at < cutoff
    ensures Recent(log[n..], cutoff) == Recent(log, cutoff)
  {
    if n == 0 {
      assert log[0..] == log;
    } else {
      assert forall i | 0 <= i < n - 1 :: log[1..][i] == log[i + 1];
      RecentOfSuffix(log[1..], n - 1, cutoff);
      assert log[1..][n - 1..] == log[n..];
    }
  }

  /*************** the limiter ***************/

  function Get<K, V>(m: map<K, seq<V>>, k: K): seq<V> { if k in m then m[k] else [] }

  function Times(log: seq<Hit>): seq<Time> { seq(|log|, i requires 0 <= i < |log| => log[i].at) }

  // The window is the log without its first n hits, all of them expired.
  ghost predicate Drops(window: seq<Time>, log: seq<Hit>, n: nat, clock: Time) {
    n <= |log| && window == Times(log)[n..] && forall i | 0 <= i < n :: log[i].at < clock - WINDOW
  }

  ghost predicate Represents(window: seq<Time>, log: seq<Hit>, clock: Time) {
    Sorted(log) && UpTo(log, clock) && exists n: nat :: Drops(window, log, n, clock)
  }

  lemma {:induction false} RepresentsLater(window: seq<Time>, log: seq<Hit>, clock: Time, now: Time)
    requires Represents(window, log, clock) && clock <= now
    ensures Represents(window, log, now)
  {
    var n: nat :| Drops(window, log, n, clock);
    assert Drops(window, log, n, now);
  }

  // One more expired hit dropped.
  lemma {:induction false} RepresentsDropped(window: seq<Time>, log: seq<Hit>, now: Time)
    requires Represents(window, log, now) && window != [] && window[0] < now - WINDOW
    ensures Represents(window[1..], log, now)
  {
    var n: nat :| Drops(window, log, n, now);
    assert window[0] == log[n].at;
    assert Drops(window[1..], log, n + 1, now);
  }

  // Once the front is not expired, the window is exactly the recent hits.
  lemma {:induction false} RepresentsPruned(window: seq<Time>, log: seq<Hit>, now: Time)
    requires Represents(window, log, now) && (window == [] || now - WINDOW <= window[0])
    ensures window == Times(Recent(log, now - WINDOW))
  {
    var n: nat :| Drops(window, log, n, now);
    var m := RecentIs(log, now - WINDOW);
    if n < |log| { assert window[0] == log[n].at; }
    assert m < |log| ==> now - WINDOW <= log[m].at;
    assert n == m;
    assert window == Times(log[n..]);
  }

  // A window whose newest hit has expired can be forgotten.
  lemma {:induction false} RepresentsForgotten(window: seq<Time>, log: seq<Hit>, now: Time)
    requires Represents(window, log, now) && (window == [] || window[|window|-1] < now - WINDOW)
    ensures Represents([], log, now)
  {
    var n: nat :| Drops(window, log, n, now);
    if n < |log| { assert window[|window|-1] == log[|log|-1].at; }
    forall i | 0 <= i < |log| ensures log[i].at < now - WINDOW {
      if n <= i && i < |log| - 1 { assert log[i].at <= log[|log|-1].at; }
    }
    assert Drops([], log, |log|, now);
  }

  lemma {:induction false} RepresentsAdmitted(window: seq<Time>, log: seq<Hit>, now: Time, limit: int)
    requires Represents(window, log, now)
    ensures Represents(window + [now], log + [Hit(now, limit)], now)
  {
    var n: nat :| Drops(window, log, n, now);
    var log' := log + [Hit(now, limit)];
    assert Times(log') == Times(log) + [now];
    assert Drops(window + [now], log', n, now);
  }

  lemma {:induction false} NothingRepresentsNothing(now: Time)
    ensures Represents([], [], now)
  {
    assert Drops([], [], 0, now);
  }

  // The decision in terms of the window's times.
  lemma {:induction false} DecideIs(log: seq<Hit>, now: Time, limit: int, window: seq<Time>)
    requires 0 < limit && window == Times(Recent(log, now - WINDOW))
    ensures if |window| >= limit
            then window != [] && Decide(log, now, limit) == Decision(false, limit, 0, Max(1.0, window[0] + WINDOW - now)) &&
                 After(log, now, limit) == log
            else Decide(log, now, limit) == Decision(true, limit, limit - |window| - 1, 0.0) &&
                 After(log, now, limit) == log + [Hit(now, limit)]
  {}

  /** `_api_window`, with a log of every admitted hit beside it, and every request that was decided on. */
  class Limiter {
    var windows: map<Key, seq<Time>>
    ghost var log: map<Key, seq<Hit>>
    ghost var history: map<Key, seq<Request>>
    ghost var clock: Time

    ghost predicate Valid() reads this {
      && (forall k :: Represents(Get(windows, k), Get(log, k), clock))
      && (forall k :: IsLog(Get(log, k), Get(history, k), clock))
    }

    constructor ()
      ensures Valid() && windows == map[] && log == map[] && history == map[]
    {
      windows, log, history, clock := map[], map[], map[], 0.0;
      new;
      forall k ensures Represents(Get(windows, k), Get(log, k), clock) { NothingRepresentsNothing(0.0); }
    }

    ghost method Tick(now: Time)
      requires Valid() && clock <= now
      modifies this`clock
      ensures Valid() && clock == now
    {
      forall k ensures Represents(Get(windows, k), Get(log, k), now) {
        RepresentsLater(Get(windows, k), Get(log, k), clock, now);
      }
      forall k ensures IsLog(Get(log, k), Get(history, k), now) { IsLogLater(Get(log, k), Get(history, k), clock, now); }
      clock := now;
    }

    /** The sweep, at any moment: it forgets exactly the windows that are empty or whose newest hit has
        expired, and the log does not notice. */
    method EvictStaleWindows(now: Time)
      requires Valid() && clock <= now
      modifies this
      ensures Valid() && log == old(log) && history == old(history) && clock == now
      ensures forall k :: k in windows <==> k in old(windows) && old(windows)[k] != [] &&
                                             now - WINDOW <= old(windows)[k][|old(windows)[k]|-1]
      ensures forall k | k in windows :: windows[k] == old(windows)[k]
    {
      hide Represents, IsLog;
      Tick(now);
      forall k | k in windows && (windows[k] == [] || windows[k][|windows[k]|-1] < now - WINDOW)
        ensures Represents([], Get(log, k), clock)
      {
        RepresentsForgotten(Get(windows, k), Get(log, k), now);
      }
      var before := windows;
      windows := map k | k in windows && windows[k] != [] && now - WINDOW <= windows[k][|windows[k]|-1] :: windows[k];
      forall k ensures Represents(Get(windows, k), Get(log, k), clock) {
        assert Represents(Get(before, k), Get(log, k), clock);
      }
    }

    // The amortised sweep.
    method Arrive(now: Time)
      requires Valid() && clock <= now
      modifies this
      ensures Valid() && log == old(log) && history == old(history) && clock == now
    {
      if |windows| > SWEEP_ABOVE {
        EvictStaleWindows(now);
      } else {
        Tick(now);
      }
    }

    // `while window and window[0] < cutoff: window.popleft()`
    method Prune(key: Key, now: Time) returns (window: seq<Time>)
      requires Valid() && clock == now
      ensures Represents(window, Get(log, key), now) && window == Times(Recent(Get(log, key), now - WINDOW))
      ensures IsLog(Get(log, key), Get(history, key), now)
    {
      hide Represents, Recent, Times, IsLog;
      window := if key in windows then windows[key] else [];
      assert Represents(Get(windows, key), Get(log, key), now);
      while window != [] && window[0] < now - WINDOW
        invariant Represents(window, Get(log, key), now)
        decreases |window|
      {
        RepresentsDropped(window, Get(log, key), now);
        window := window[1..];
      }
      RepresentsPruned(window, Get(log, key), now);
    }

    // Store one key's window and log.
    method Store(key: Key, window: seq<Time>, ghost hits: seq<Hit>, ghost requests: seq<Request>)
      requires Valid() && Represents(window, hits, clock) && IsLog(hits, requests, clock)
      modifies this`windows, this`log, this`history
      ensures Valid()
      ensures forall k :: Get(log, k) == if k == key then hits else Get(old(log), k)
      ensures forall k :: Get(history, k) == if k == key then requests else Get(old(history), k)
    {
      hide Represents, IsLog;
      windows := windows[key := window];
      log := log[key := hits];
      history := history[key := requests];
      forall k ensures IsLog(Get(log, k), Get(history, k), clock) {
        if k != key {
          assert old(IsLog(Get(log, k), Get(history, k), clock));
          assert Get(history, k) == old(Get(history, k)) && Get(log, k) == old(Get(log, k));
        }
      }
      forall k ensures Represents(Get(windows, k), Get(log, k), clock) {
        if k != key {
          assert old(Represents(Get(windows, k), Get(log, k), clock));
          assert Get(windows, k) == old(Get(windows, k)) && Get(log, k) == old(Get(log, k));
        }
      }
    }

    /** The decision is the one the unpruned log makes, whatever was expired or swept before, the log grows by
        exactly the admitted hit, and the history by the request.  No budget, no limiting and no change. */
    method CheckApiRateLimit(key: Key, now: Time, limit: int) returns (result: Option<Decision>)
      requires Valid() && clock <= now
      modifies this
      ensures Valid()
      ensures limit <= 0 ==> result == None && windows == old(windows) && log == old(log) && history == old(history)
      ensures 0 < limit ==> result == Some(Decide(Get(old(log), key), now, limit)) && clock == now
      ensures 0 < limit ==> forall k :: Get(log, k) == if k == key then After(Get(old(log), key), now, limit) else Get(old(log), k)
      ensures 0 < limit ==> forall k ::
        Get(history, k) == if k == key then Get(old(history), key) + [Request(now, limit)] else Get(old(history), k)
    {
      if limit <= 0 { return None; }
      hide Represents, Recent, Decide, After, Times, Get, IsLog, Valid;
      Arrive(now);
      var window := Prune(key, now);
      var decision := Admit(key, now, limit, window);
      result := Some(decision);
    }

    // The decision over the pruned window.
    method Admit(key: Key, now: Time, limit: int, pruned: seq<Time>) returns (d: Decision)
      requires Valid() && clock == now && 0 < limit
      requires Represents(pruned, Get(log, key), now) && pruned == Times(Recent(Get(log, key), now - WINDOW))
      requires IsLog(Get(log, key), Get(history, key), now)
      modifies this`windows, this`log, this`history
      ensures Valid() && d == Decide(Get(old(log), key), now, limit)
      ensures forall k :: Get(log, k) == if k == key then After(Get(old(log), key), now, limit) else Get(old(log), k)
      ensures forall k ::
        Get(history, k) == if k == key then Get(old(history), key) + [Request(now, limit)] else Get(old(history), k)
    {
      hide Represents, Recent, Decide, After, Times, Get, IsLog, Valid;
      var window := pruned;
      ghost var hits := Get(log, key);
      ghost var requests := Get(history, key) + [Request(now, limit)];
      DecideIs(hits, now, limit, window);
      IsLogNext(hits, Get(history, key), now, limit);
      if |window| >= limit {
        Store(key, window, hits, requests);
        return Decision(false, limit, 0, Max(1.0, window[0] + WINDOW - now));
      }
      RepresentsAdmitted(window, hits, now, limit);
      window := window + [now];
      Store(key, window, hits + [Hit(now, limit)], requests);
      d := Decision(true, limit, limit - |window|, 0.0);
    }
  }

  // What the limiter holds of one key: its log is the log of its requests.
  ghost predicate IsLog(log: seq<Hit>, requests: seq<Request>, clock: Time) {
    Chronological(requests) && Limited(requests) && log == LogOf(requests) &&
    (requests != [] ==> requests[|requests| - 1].at <= clock)
  }

  lemma {:induction false} IsLogLater(log: seq<Hit>, requests: seq<Request>, clock: Time, now: Time)
    requires IsLog(log, requests, clock) && clock <= now
    ensures IsLog(log, requests, now)
  {}

  lemma {:induction false} IsLogNext(log: seq<Hit>, requests: seq<Request>, now: Time, limit: int)
    requires IsLog(log, requests, now) && 0 < limit
    ensures IsLog(After(log, now, limit), requests + [Request(now, limit)], now)
  {
    var more := requests + [Request(now, limit)];
    assert more[..|requests|] == requests;
    forall i | 0 <= i < |requests| ensures requests[i].at <= now {
      if i < |requests| - 1 { assert requests[i].at <= requests[|requests| - 1].at; }
    }
  }

  /** Whatever calls a limiter has seen, sweeps in between included: while the limits of a key's requests were at
      most `most`, no closed minute holds more admitted hits of that key. */
  lemma {:induction false} LimiterBound(l: Limiter, key: Key, most: nat, a: Time)
    requires l.Valid() && forall r | r in Get(l.history, key) :: r.limit <= most
    ensures |HitsIn(Get(l.log, key), a, a + WINDOW)| <= most
  {
    assert IsLog(Get(l.log, key), Get(l.history, key), l.clock);
    var requests := Get(l.history, key);
    assert forall i | 0 <= i < |requests| :: requests[i] in requests;
    WindowBound(requests, most, a);
  }

  /*************** what the advertised numbers mean ***************/

  // The log after n more requests at the same moment under the same limit.
  function Repeated(log: seq<Hit>, now: Time, limit: int, n: nat): seq<Hit>
    requires 0 < limit
  {
    if n == 0 then log else After(Repeated(log, now, limit, n - 1), now, limit)
  }

  lemma {:induction false} RepeatedIs(log: seq<Hit>, now: Time, limit: int, n: nat)
    requires 0 < limit && Sorted(log) && UpTo(log, now) && |Recent(log, now - WINDOW)| + n <= limit
    ensures var more := Repeated(log, now, limit, n);
            Sorted(more) && UpTo(more, now) && |Recent(more, now - WINDOW)| == |Recent(log, now - WINDOW)| + n
  {
    if n > 0 {
      RepeatedIs(log, now, limit, n - 1);
      var most := Repeated(log, now, limit, n - 1);
      var one := most + [Hit(now, limit)];
      RecentSnoc(one, now - WINDOW);
      assert one[..|most|] == most;
    }
  }

  /** `remaining` is the budget left: an admitted caller is admitted exactly that many times more at the same moment. */
  lemma {:induction false} RemainingIsBudget(log: seq<Hit>, now: Time, limit: int, n: nat)
    requires 0 < limit && Sorted(log) && UpTo(log, now) && Decide(log, now, limit).allowed
    ensures 0 <= Decide(log, now, limit).remaining
    ensures n <= Decide(log, now, limit).remaining ==>
              (Decide(Repeated(After(log, now, limit), now, limit, n), now, limit).allowed <==> n < Decide(log, now, limit).remaining)
  {
    if n <= Decide(log, now, limit).remaining {
      RepeatedIs(log, now, limit, 1);
      assert Repeated(log, now, limit, 1) == After(log, now, limit) by { assert Repeated(log, now, limit, 0) == log; }
      RepeatedIs(After(log, now, limit), now, limit, n);
    }
  }

  /** The advertised wait is not too long: a rejected caller told to wait more than a second is still rejected when it
      returns any earlier. */
  lemma {:induction false} EarlyReturnIsRejected(log: seq<Hit>, now: Time, limit: int, later: Time)
    requires 0 < limit && Sorted(log) && !Decide(log, now, limit).allowed && 1.0 < Decide(log, now, limit).retryAfter
    requires now <= later <= now + Decide(log, now, limit).retryAfter
    ensures !Decide(log, later, limit).allowed
  {
    var n := RecentIs(log, now - WINDOW);
    var m := RecentIs(log, later - WINDOW);
    assert log[n].at == Recent(log, now - WINDOW)[0].at;
    assert m <= n;
  }

  /*************** how many hits a minute can hold ***************/

  // One key's requests over time, each under the limit in force then.
  datatype Request = Request(at: Time, limit: int)

  predicate Chronological(rs: seq<Request>) { forall i, j | 0 <= i < j < |rs| :: rs[i].at <= rs[j].at }
  predicate Limited(rs: seq<Request>) { forall i | 0 <= i < |rs| :: 0 < rs[i].limit }

  // The log after all requests.
  function LogOf(rs: seq<Request>): seq<Hit>
    requires Limited(rs)
  {
    if rs == [] then [] else After(LogOf(rs[..|rs|-1]), rs[|rs|-1].at, rs[|rs|-1].limit)
  }

  /** Any hits at most 60 seconds apart, the first and last included, are no more than the limit the last
      of them was admitted under. */
  predicate Spaced(log: seq<Hit>) {
    forall i, j | 0 <= i <= j < |log| && log[j].at - log[i].at <= WINDOW :: j - i + 1 <= log[j].limit
  }

  lemma {:induction false} AfterSpaced(log: seq<Hit>, now: Time, limit: int)
    requires 0 < limit && Sorted(log) && UpTo(log, now) && Spaced(log)
    ensures Sorted(After(log, now, limit)) && UpTo(After(log, now, limit), now) && Spaced(After(log, now, limit))
  {
    var log' := After(log, now, limit);
    if Decide(log, now, limit).allowed {
      var n := RecentIs(log, now - WINDOW);
      forall i, j | 0 <= i <= j < |log'| && log'[j].at - log'[i].at <= WINDOW ensures j - i + 1 <= log'[j].limit {
        if j == |log| && i < |log| {
          assert log'[i] == log[i];
          assert n <= i;
        }
      }
    }
  }

  /** Every log the limiter can build, with limits changing in any way, is spaced. */
  lemma {:induction false} EveryLogIsSpaced(rs: seq<Request>)
    requires Chronological(rs) && Limited(rs)
    ensures Sorted(LogOf(rs)) && Spaced(LogOf(rs)) && (rs != [] ==> UpTo(LogOf(rs), rs[|rs|-1].at))
  {
    if rs != [] {
      var n := |rs| - 1;
      EveryLogIsSpaced(rs[..n]);
      var log := LogOf(rs[..n]);
      if n > 0 { assert rs[n-1].at <= rs[n].at && rs[..n][n-1] == rs[n-1]; }
      assert UpTo(log, rs[n].at);
      AfterSpaced(log, rs[n].at, rs[n].limit);
    }
  }

  // Hits in the closed interval [a, b].
  function HitsIn(log: seq<Hit>, a: Time, b: Time): seq<Hit> {
    if log == [] then [] else
    HitsIn(log[..|log|-1], a, b) + if a <= log[|log|-1].at <= b then [log[|log|-1]] else []
  }

  // The recent hits of one more hit.
  lemma {:induction false} RecentSnoc(log: seq<Hit>, cutoff: Time)
    requires Sorted(log) && log != []
    ensures |Recent(log, cutoff)| == |Recent(log[..|log|-1], cutoff)| + if cutoff <= log[|log|-1].at then 1 else 0
  {
    var init, last := log[..|log|-1], log[|log|-1];
    assert forall k | 0 <= k < |init| :: init[k] == log[k];
    if last.at < cutoff {
      RecentNone(log, cutoff);
      RecentNone(init, cutoff);
    } else {
      var n := RecentIs(log, cutoff);
      var m := RecentIs(init, cutoff);
      assert log[|log|-1].at >= cutoff;
      assert n <= |init|;
      assert n < |init| ==> cutoff <= log[n].at;
      assert m < |init| ==> cutoff <= log[m].at;
      assert n == m;
    }
  }

  lemma {:induction false} RecentNone(log: seq<Hit>, cutoff: Time)
    requires forall k | 0 <= k < |log| :: log[k].at < cutoff
    ensures Recent(log, cutoff) == []
  {
    if log != [] { RecentNone(log[1..], cutoff); }
  }

  // If no hit is later than b, the hits in [a, b] are the recent ones at a.
  lemma {:induction false} HitsInAreRecent(log: seq<Hit>, a: Time, b: Time)
    requires Sorted(log) && UpTo(log, b)
    ensures |HitsIn(log, a, b)| == |Recent(log, a)|
  {
    if log != [] {
      RecentSnoc(log, a);
      HitsInAreRecent(log[..|log|-1], a, b);
    }
  }

  /** With limits of at most `most` throughout, no closed 60-second interval holds more than `most`
      admitted hits of one key. */
  lemma {:induction false} WindowBound(rs: seq<Request>, most: nat, a: Time)
    requires Chronological(rs) && Limited(rs) && forall i | 0 <= i < |rs| :: rs[i].limit <= most
    ensures |HitsIn(LogOf(rs), a, a + WINDOW)| <= most
  {
    EveryLogIsSpaced(rs);
    LimitsFollow(rs, most);
    SpacedBound(LogOf(rs), most, a);
  }

  lemma {:induction false} SpacedBound(log: seq<Hit>, most: nat, a: Time)
    requires Sorted(log) && Spaced(log) && forall i | 0 <= i < |log| :: log[i].limit <= most
    ensures |HitsIn(log, a, a + WINDOW)| <= most
  {
    if log != [] {
      var last := |log| - 1;
      if log[last].at <= a + WINDOW {
        HitsInAreRecent(log, a, a + WINDOW);
        var n := RecentIs(log, a);
        if n < |log| {
          assert log[last].at - log[n].at <= WINDOW;
          assert last - n + 1 <= log[last].limit;
        }
      } else {
        SpacedBound(log[..last], most, a);
      }
    }
  }

  lemma {:induction false} LimitsFollow(rs: seq<Request>, most: int)
    requires Limited(rs) && forall i | 0 <= i < |rs| :: rs[i].limit <= most
    ensures forall i | 0 <= i < |LogOf(rs)| :: LogOf(rs)[i].limit <= most
  {
    if rs != [] { LimitsFollow(rs[..|rs|-1], most); }
  }

  /*************** Retry-After ***************/

  // `str(int(retry_after) + 1)`, in seconds.
  function RetryAfterHeader(d: Decision): int { d.retryAfter.Floor + 1 }

  // A rejected caller that waits the advertised time finds at least one hit expired.
  lemma {:induction false} WaitFreesASlot(log: seq<Hit>, now: Time, limit: int, later: Time)
    requires 0 < limit && Sorted(log) && !Decide(log, now, limit).allowed
    requires now + RetryAfterHeader(Decide(log, now, limit)) as real <= later
    ensures |Recent(log, later - WINDOW)| < |Recent(log, now - WINDOW)|
  {
    var d := Decide(log, now, limit);
    var recent := Recent(log, now - WINDOW);
    var n := RecentIs(log, now - WINDOW);
    var m := RecentIs(log, later - WINDOW);
    assert recent[0] == log[n];
    assert d.retryAfter < RetryAfterHeader(d) as real;
    assert log[n].at + WINDOW - now <= d.retryAfter;
    assert log[n].at < later - WINDOW;
    assert n < m;
  }

  /** If no hit of the key was admitted under a higher limit, a rejected caller that waits the advertised
      whole seconds, with no other hit of the key admitted meanwhile, is admitted. */
  lemma {:induction false} RetryIsEnough(rs: seq<Request>, now: Time, limit: int, later: Time)
    requires Chronological(rs) && Limited(rs) && 0 < limit && forall i | 0 <= i < |rs| :: rs[i].limit <= limit
    requires rs != [] ==> rs[|rs|-1].at <= now
    requires !Decide(LogOf(rs), now, limit).allowed
    requires now + RetryAfterHeader(Decide(LogOf(rs), now, limit)) as real <= later
    ensures Decide(LogOf(rs), later, limit).allowed
  {
    EveryLogIsSpaced(rs);
    LimitsFollow(rs, limit);
    var log := LogOf(rs);
    WaitFreesASlot(log, now, limit, later);
    var n := RecentIs(log, now - WINDOW);
    var last := |log| - 1;
    assert log[last].at - log[n].at <= WINDOW;
    assert last - n + 1 <= log[last].limit <= limit;
  }

  /** When the limit has been lowered the advertised wait can be too short: two hits admitted under a
      limit of 2, one at 0 s and one at 30 s, and a limit of 1 from then on. */
  lemma {:induction false} LoweredLimitBreaksRetry()
    ensures var rs := [Request(0.0, 2), Request(30.0, 2)];
            && Chronological(rs) && Limited(rs)
            && !Decide(LogOf(rs), 31.0, 1).allowed
            && RetryAfterHeader(Decide(LogOf(rs), 31.0, 1)) == 30
            && !Decide(LogOf(rs), 61.0, 1).allowed
  {
    var rs := [Request(0.0, 2), Request(30.0, 2)];
    assert rs[..1] == [rs[0]] && rs[..1][..0] == [];
    var one := [Hit(0.0, 2)];
    assert LogOf(rs[..1]) == one by { assert [] + [Hit(0.0, 2)] == one; }
    var two := [Hit(0.0, 2), Hit(30.0, 2)];
    assert one + [Hit(30.0, 2)] == two;
    assert LogOf(rs) == two;
    assert Recent(two, 31.0 - WINDOW) == two;
    assert two[1..] == [Hit(30.0, 2)];
    assert Recent(two, 61.0 - WINDOW) == [Hit(30.0, 2)];
    assert (29.0).Floor == 29;
  }

  /** For any limits: a caller that is rejected now and comes back at `later`, with no other hit of its key
      admitted meanwhile, is admitted exactly when the limit-th newest hit of its window has expired by then.
      This can be read off the window at the moment of the rejection. */
  lemma {:induction false} RetryAdmittedIff(log: seq<Hit>, now: Time, limit: int, later: Time)
    requires 0 < limit && Sorted(log) && !Decide(log, now, limit).allowed && now <= later
    ensures var recent := Recent(log, now - WINDOW);
            limit <= |recent| && (Decide(log, later, limit).allowed <==> recent[|recent| - limit].at + WINDOW < later)
  {
    var recent := Recent(log, now - WINDOW);
    var n := RecentIs(log, now - WINDOW);
    var m := RecentIs(log, later - WINDOW);
    var k := |log| - limit;
    assert recent == log[n..] && recent[|recent| - limit] == log[k];
    if m <= k { assert later - WINDOW <= log[k].at; } else { assert log[k].at < later - WINDOW; }
  }

  /** So waiting exactly the advertised seconds is enough if and only if that hit expires within them.  The
      advertised wait is computed from the oldest hit instead, which is the same hit unless the limit was
      lowered. */
  lemma {:induction false} AdvertisedWaitIsEnoughIff(log: seq<Hit>, now: Time, limit: int)
    requires 0 < limit && Sorted(log) && !Decide(log, now, limit).allowed
    ensures var (recent, wait) := (Recent(log, now - WINDOW), RetryAfterHeader(Decide(log, now, limit)) as real);
            limit <= |recent| &&
            (Decide(log, now + wait, limit).allowed <==> recent[|recent| - limit].at + WINDOW < now + wait) &&
            (|recent| == limit ==> Decide(log, now + wait, limit).allowed)
  {
    var (d, recent) := (Decide(log, now, limit), Recent(log, now - WINDOW));
    var wait := RetryAfterHeader(d) as real;
    assert d.retryAfter < wait && recent[0].at + WINDOW - now <= d.retryAfter && 1.0 <= d.retryAfter;
    RetryAdmittedIff(log, now, limit, now + wait);
  }
}
