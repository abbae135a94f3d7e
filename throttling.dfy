/**
 * `check_throttle`: a fixed-window counter per caller-chosen key. Time is cut
 * into windows of `window` seconds; every enabled call adds one to the counter
 * of its key and window, and is allowed while that count is within `limit`.
 *
 * The clock is read twice by the source (once for the window, once for the
 * reset time); both readings are parameters here, `now` and `later`.
 */
module Throttling {
  import opened Wrappers
  import opened Text
  import opened KeyValueCache

  datatype ThrottleResult = ThrottleResult(allowed: bool, remaining: int, resetSeconds: int)

  /** The window that owns second `now`: `now // window`. */
  function Bucket(now: int, window: int): (b: int)
    requires window > 0
    ensures b * window <= now < (b + 1) * window
  {
    now / window
  }

  /** The first second after the window of `now`: `(bucket + 1) * window`. */
  function WindowEnd(now: int, window: int): (end: int)
    requires window > 0
    ensures now < end <= now + window
  {
    (Bucket(now, window) + 1) * window
  }

  /** The cache key of one window's counter: `f"th:{key}:{bucket}"`. */
  function StoreKey(key: string, bucket: int): (k: string)
    ensures |k| > 3 && k[..3] == "th:"
    ensures AfterLastColon(k) == IntToString(bucket)
  {
    AfterLastColonOfKey("th:" + key, IntToString(bucket));
    "th:" + key + ":" + IntToString(bucket)
  }

  /** Counters of different keys or different windows never share a cache key. */
  lemma StoreKeyInjective(k1: string, b1: int, k2: string, b2: int)
    ensures StoreKey(k1, b1) == StoreKey(k2, b2) <==> k1 == k2 && b1 == b2
  {
    TaggedKeyInjective("th:", k1, IntToString(b1), k2, IntToString(b2));
    IntToStringInjective(b1, b2);
  }

  /**
   * Two calls with the same key, at seconds `t1 <= t2`, count in the same
   * counter exactly when `t2` comes before the end of the window of `t1`.
   */
  lemma SameCounterWithinWindow(key: string, window: int, t1: int, t2: int)
    requires window > 0 && t1 <= t2
    ensures (StoreKey(key, Bucket(t1, window)) == StoreKey(key, Bucket(t2, window)))
            <==> t2 < (Bucket(t1, window) + 1) * window
  {
    var b1, b2 := Bucket(t1, window), Bucket(t2, window);
    StoreKeyInjective(key, b1, key, b2);
    if b2 < b1 {
      MulMonotone(b2 + 1, b1, window);
    } else if b1 < b2 {
      MulMonotone(b1 + 1, b2, window);
    }
  }

  /** Multiplying by a positive window size keeps the order of window numbers. */
  lemma MulMonotone(a: int, b: int, w: int)
    requires a <= b && w > 0
    ensures a * w <= b * w
  {
  }

  /** The result for the `count`-th call of window `bucket` (source lines 41-45). */
  function Decide(count: int, limit: int, window: int, bucket: int, later: int): (r: ThrottleResult)
    ensures r.allowed <==> count <= limit
    ensures 0 <= r.remaining && (r.allowed ==> r.remaining == limit - count) && (!r.allowed ==> r.remaining == 0)
    ensures 0 <= r.resetSeconds && (0 < r.resetSeconds ==> r.resetSeconds == (bucket + 1) * window - later)
    ensures (bucket + 1) * window - later >= 0 ==> r.resetSeconds == (bucket + 1) * window - later
  {
    var reset := (bucket + 1) * window - later;
    ThrottleResult(count <= limit, if limit - count > 0 then limit - count else 0, if reset < 0 then 0 else reset)
  }

  /**
   * `check_throttle` as a function of the cache's counters: the result and
   * the counters afterwards.
   */
  function ThrottleSpec(entries: map<string, int>, key: string, limit: int, window: int, now: int, later: int)
    : (out: (ThrottleResult, map<string, int>))
    ensures limit <= 0 || window <= 0 ==> out == (ThrottleResult(true, limit, window), entries)
    ensures limit > 0 && window > 0 ==>
              var k := StoreKey(key, Bucket(now, window));
              var count := CountOf(entries, k) + 1;
              && out.1 == entries[k := count]
              && (out.0.allowed <==> count <= limit)
              && 0 <= out.0.remaining
              && (out.0.allowed ==> out.0.remaining == limit - count)
              && (!out.0.allowed ==> out.0.remaining == 0)
              && 0 <= out.0.resetSeconds
              && (now <= later ==> out.0.resetSeconds <= window)
              && (later == now ==> 1 <= out.0.resetSeconds)
              && (later <= WindowEnd(now, window) ==> out.0.resetSeconds == WindowEnd(now, window) - later)
              && (later >= WindowEnd(now, window) ==> out.0.resetSeconds == 0)
  {
    if limit <= 0 || window <= 0 then
      (ThrottleResult(true, limit, window), entries)
    else
      var bucket := Bucket(now, window);
      var k := StoreKey(key, bucket);
      var count := CountOf(entries, k) + 1;
      (Decide(count, limit, window, bucket, later), entries[k := count])
  }

  /**
   * `check_throttle(key, limit, window_seconds)` against the shared cache.
   * The counter is raised by `incr` when that works, otherwise by `get`
   * followed by `add(…, 1)` or `set(existing + 1)`; either way it ends one
   * higher than before. Only the fallback path (re)sets the timeout.
   */
  method CheckThrottle(cache: Cache, key: string, limit: int, window: int, now: int, later: int)
    returns (r: ThrottleResult)
    modifies cache
    ensures (r, cache.entries) == ThrottleSpec(old(cache.entries), key, limit, window, now, later)
    ensures limit <= 0 || window <= 0 ==> cache.timeouts == old(cache.timeouts)
    ensures limit > 0 && window > 0 ==>
              var k := StoreKey(key, Bucket(now, window));
              cache.timeouts == if cache.incrSupported && k in old(cache.entries) then old(cache.timeouts)
                                else old(cache.timeouts)[k := window]
  {
    if limit <= 0 || window <= 0 {
      return ThrottleResult(true, limit, window);
    }
    var bucket := now / window;
    var cacheKey := StoreKey(key, bucket);

    var count: int;
    var incremented := cache.Incr(cacheKey);
    if incremented.Some? {
      count := incremented.value;
    } else {
      var existing := cache.Get(cacheKey);
      if existing.None? {
        var _ := cache.Add(cacheKey, 1, window);
        count := 1;
      } else {
        count := existing.value + 1;
        cache.Set(cacheKey, count, window);
      }
    }

    var allowed := count <= limit;
    var remaining := if 0 > limit - count then 0 else limit - count;
    var resetSeconds := (bucket + 1) * window - later;
    if resetSeconds < 0 {
      resetSeconds := 0;
    }
    r := ThrottleResult(allowed, remaining, resetSeconds);
  }

  // ---------------------------------------------------------------------------
  // Several calls
  // ---------------------------------------------------------------------------

  /**
   * The results of successive calls with the same arguments, the `i`-th made
   * at second `times[i]` (both clock readings of a call taken at that second),
   * and the counters after them.
   */
  function Calls(entries: map<string, int>, key: string, limit: int, window: int, times: seq<int>)
    : (seq<ThrottleResult>, map<string, int>)
    decreases |times|
  {
    if times == [] then ([], entries)
    else
      var (results, after) := Calls(entries, key, limit, window, times[..|times| - 1]);
      var now := times[|times| - 1];
      var (r, next) := ThrottleSpec(after, key, limit, window, now, now);
      (results + [r], next)
  }

  /** Every second in `times` lies in the window of `now`. */
  predicate WithinWindowOf(times: seq<int>, window: int, now: int)
    requires window > 0
  {
    forall i :: 0 <= i < |times| ==> Bucket(times[i], window) == Bucket(now, window)
  }

  /**
   * Calls at any seconds of one window whose counter does not exist yet: the
   * first `limit` calls are allowed with `remaining` counting down to 0, and
   * every later call is rejected; rejected calls still count, so after `n`
   * calls the counter is `n`. No other counter changes.
   */
  lemma {:induction false} CallsInFreshWindow(entries: map<string, int>, key: string, limit: int, window: int,
                                              now: int, times: seq<int>)
    requires limit > 0 && window > 0 && WithinWindowOf(times, window, now)
    requires StoreKey(key, Bucket(now, window)) !in entries
    ensures var (results, after) := Calls(entries, key, limit, window, times);
            && |results| == |times|
            && (forall i :: 0 <= i < |times| ==> (results[i].allowed <==> i < limit))
            && (forall i :: 0 <= i < |times| ==> results[i].remaining == if i < limit then limit - i - 1 else 0)
            && CountOf(after, StoreKey(key, Bucket(now, window))) == |times|
            && (forall k :: k != StoreKey(key, Bucket(now, window)) ==> (k in after <==> k in entries))
            && (forall k :: k != StoreKey(key, Bucket(now, window)) && k in entries ==> after[k] == entries[k])
    decreases |times|
  {
    if times != [] {
      var init := times[..|times| - 1];
      assert WithinWindowOf(init, window, now) by {
        forall i | 0 <= i < |init| ensures Bucket(init[i], window) == Bucket(now, window) {
          assert init[i] == times[i];
        }
      }
      CallsInFreshWindow(entries, key, limit, window, now, init);
      assert Bucket(times[|times| - 1], window) == Bucket(now, window);
    }
  }

  /** Four calls within one minute under `limit = 3`: three are allowed and the fourth is rejected. */
  lemma ThreePerMinute(entries: map<string, int>, key: string, now: int, times: seq<int>)
    requires |times| == 4 && WithinWindowOf(times, 60, now)
    requires StoreKey(key, Bucket(now, 60)) !in entries
    ensures var (results, _) := Calls(entries, key, 3, 60, times);
            && |results| == 4
            && [results[0].allowed, results[1].allowed, results[2].allowed, results[3].allowed] == [true, true, true, false]
            && [results[0].remaining, results[1].remaining, results[2].remaining, results[3].remaining] == [2, 1, 0, 0]
  {
    CallsInFreshWindow(entries, key, 3, 60, now, times);
  }

  /**
   * Exhausting a key in one window does not carry over: the first call in a
   * later window, whose counter does not exist yet, is allowed.
   */
  lemma NewWindowStartsOver(entries: map<string, int>, key: string, limit: int, window: int, t1: int, t2: int,
                            times: seq<int>)
    requires limit > 0 && window > 0 && WithinWindowOf(times, window, t1)
    requires StoreKey(key, Bucket(t1, window)) !in entries && StoreKey(key, Bucket(t2, window)) !in entries
    requires t2 >= (Bucket(t1, window) + 1) * window
    ensures var (_, after) := Calls(entries, key, limit, window, times);
            var (r, _) := ThrottleSpec(after, key, limit, window, t2, t2);
            r.allowed && r.remaining == limit - 1
  {
    CallsInFreshWindow(entries, key, limit, window, t1, times);
    SameCounterWithinWindow(key, window, t1, t2);
  }

  /** A call for one key leaves every counter of a different key as it was, in every window. */
  lemma IsolatedCounters(entries: map<string, int>, keyA: string, keyB: string, limit: int, window: int, now: int)
    requires keyA != keyB
    ensures var (_, after) := ThrottleSpec(entries, keyA, limit, window, now, now);
            forall b :: CountOf(after, StoreKey(keyB, b)) == CountOf(entries, StoreKey(keyB, b))
  {
    if limit > 0 && window > 0 {
      var kA := StoreKey(keyA, Bucket(now, window));
      var after := ThrottleSpec(entries, keyA, limit, window, now, now).1;
      assert after == entries[kA := CountOf(entries, kA) + 1];
      forall b
        ensures CountOf(after, StoreKey(keyB, b)) == CountOf(entries, StoreKey(keyB, b))
      {
        StoreKeyInjective(keyA, Bucket(now, window), keyB, b);
      }
    }
  }

  /** Calls for one key never change the outcome of a call for a different key. */
  lemma Isolation(entries: map<string, int>, keyA: string, keyB: string, limit: int, window: int, now: int, later: int)
    requires keyA != keyB
    ensures var (_, after) := ThrottleSpec(entries, keyA, limit, window, now, now);
            ThrottleSpec(after, keyB, limit, window, now, later).0 == ThrottleSpec(entries, keyB, limit, window, now, later).0
  {
    IsolatedCounters(entries, keyA, keyB, limit, window, now);
    var after := ThrottleSpec(entries, keyA, limit, window, now, now).1;
    if window > 0 {
      SameCountSameResult(after, entries, keyB, limit, window, now, later);
    }
  }

  /** The result of a call depends on the store only through the counter it raises. */
  lemma SameCountSameResult(e1: map<string, int>, e2: map<string, int>, key: string, limit: int, window: int,
                            now: int, later: int)
    requires window > 0
    requires CountOf(e1, StoreKey(key, Bucket(now, window))) == CountOf(e2, StoreKey(key, Bucket(now, window)))
    ensures ThrottleSpec(e1, key, limit, window, now, later).0 == ThrottleSpec(e2, key, limit, window, now, later).0
  {
  }

  /** Within one window the reported reset time counts down as the clock advances. */
  lemma ResetCountsDown(entries: map<string, int>, key: string, limit: int, window: int, now: int, t1: int, t2: int)
    requires limit > 0 && window > 0
    requires now <= t1 < t2 < (Bucket(now, window) + 1) * window
    ensures ThrottleSpec(entries, key, limit, window, now, t2).0.resetSeconds
            < ThrottleSpec(entries, key, limit, window, now, t1).0.resetSeconds
  {
  }
}
