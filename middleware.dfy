/**
 * `RateLimitMiddleware`: a per-IP gate in front of every request. It counts
 * admitted requests per client address and 60-second window, and answers 429
 * once the count has reached the ceiling of the request's class (60 for
 * anonymous users, 240 for authenticated ones). Unlike `check_throttle`, it
 * reads the counter first and a rejected request is not counted.
 */
module Middleware {
  import opened Wrappers
  import opened Text
  import opened KeyValueCache

  const MaxRequestsAnon: int := 60
  const MaxRequestsAuth: int := 240
  const WindowSeconds: int := 60

  /** The parts of a Django request the gate reads: `request.META` and `request.user.is_authenticated`. */
  datatype Request = Request(meta: map<string, string>, isAuthenticated: bool)

  datatype Response = Response(status: int, body: string)

  const TooManyRequests: Response := Response(429, "Too many requests, slow down.")

  /**
   * `_get_client_ip`: the first entry of a non-empty `X-Forwarded-For` header,
   * stripped of whitespace; otherwise `REMOTE_ADDR`, or "unknown" without it.
   * The header is always trusted.
   */
  function ClientIp(meta: map<string, string>): (ip: string)
    ensures "HTTP_X_FORWARDED_FOR" in meta && meta["HTTP_X_FORWARDED_FOR"] != "" ==>
              ',' !in ip && (ip == [] || (!IsSpace(ip[0]) && !IsSpace(ip[|ip| - 1])))
    ensures !("HTTP_X_FORWARDED_FOR" in meta && meta["HTTP_X_FORWARDED_FOR"] != "") ==>
              ip == if "REMOTE_ADDR" in meta then meta["REMOTE_ADDR"] else "unknown"
  {
    if "HTTP_X_FORWARDED_FOR" in meta && meta["HTTP_X_FORWARDED_FOR"] != "" then
      StripAddsNothing(FirstSegment(meta["HTTP_X_FORWARDED_FOR"]));
      Strip(FirstSegment(meta["HTTP_X_FORWARDED_FOR"]))
    else if "REMOTE_ADDR" in meta then meta["REMOTE_ADDR"]
    else "unknown"
  }

  /**
   * The converse of ClientIp's contract: a header made of whitespace, a
   * trimmed comma-free text, whitespace, and then nothing or a comma and
   * anything, identifies the client as that text.
   */
  lemma ForwardedIdentity(meta: map<string, string>, pre: string, ip: string, post: string, rest: string)
    requires AllSpace(pre) && AllSpace(post) && ',' !in pre + ip + post
    requires ip == [] || (!IsSpace(ip[0]) && !IsSpace(ip[|ip| - 1]))
    requires rest == [] || rest[0] == ','
    requires "HTTP_X_FORWARDED_FOR" in meta && meta["HTTP_X_FORWARDED_FOR"] == pre + ip + post + rest
    requires pre + ip + post + rest != []
    ensures ClientIp(meta) == ip
  {
    FirstSegmentUpToComma(pre + ip + post, rest);
    StripPadded(pre, ip, post);
  }

  /** A blank first entry (as in " , 10.0.0.1") gives the empty identity: there is no fallback to `REMOTE_ADDR`. */
  lemma BlankForwardedEntry(meta: map<string, string>, blank: string, rest: string)
    requires AllSpace(blank)
    requires "HTTP_X_FORWARDED_FOR" in meta && meta["HTTP_X_FORWARDED_FOR"] == blank + "," + rest
    ensures ClientIp(meta) == ""
  {
    assert ',' !in blank;
    assert blank + "," + rest == blank + "" + "" + ("," + rest);
    ForwardedIdentity(meta, blank, "", "", "," + rest);
  }

  /** The request ceiling of the request's class. */
  function MaxRequests(isAuthenticated: bool): (limit: int)
    ensures MaxRequestsAnon <= limit <= MaxRequestsAuth
    ensures limit == MaxRequestsAuth <==> isAuthenticated
  {
    if isAuthenticated then MaxRequestsAuth else MaxRequestsAnon
  }

  /** The cache key of a client's counter: `f"rl:{client_ip}:{now // 60}"`. */
  function GateKey(ip: string, now: int): (k: string)
    ensures |k| > 3 && k[..3] == "rl:"
    ensures AfterLastColon(k) == IntToString(now / WindowSeconds)
  {
    AfterLastColonOfKey("rl:" + ip, IntToString(now / WindowSeconds));
    "rl:" + ip + ":" + IntToString(now / WindowSeconds)
  }

  /** Clients with different identities, or one client in different windows, never share a counter. */
  lemma GateKeyInjective(ip1: string, t1: int, ip2: string, t2: int)
    ensures GateKey(ip1, t1) == GateKey(ip2, t2) <==> ip1 == ip2 && t1 / WindowSeconds == t2 / WindowSeconds
  {
    TaggedKeyInjective("rl:", ip1, IntToString(t1 / WindowSeconds), ip2, IntToString(t2 / WindowSeconds));
    IntToStringInjective(t1 / WindowSeconds, t2 / WindowSeconds);
  }

  /**
   * The gate as a function of the cache's counters: whether the request is
   * passed on, and the counters afterwards.
   */
  function GateSpec(entries: map<string, int>, request: Request, now: int): (out: (bool, map<string, int>))
    ensures var k := GateKey(ClientIp(request.meta), now);
            && (out.0 <==> CountOf(entries, k) < MaxRequests(request.isAuthenticated))
            && (out.0 ==> k in out.1 && out.1[k] == CountOf(entries, k) + 1 <= MaxRequests(request.isAuthenticated))
            && (!out.0 ==> out.1 == entries)
            && (out.0 ==> out.1 == entries[k := out.1[k]])
  {
    var k := GateKey(ClientIp(request.meta), now);
    var count := CountOf(entries, k);
    if count >= MaxRequests(request.isAuthenticated) then (false, entries)
    else (true, entries[k := count + 1])
  }

  class RateLimitMiddleware {
    /** The rest of the request pipeline (`get_response`). */
    const getResponse: Request -> Response
    /** The requests handed to `getResponse`, in order. */
    var passedOn: seq<Request>

    constructor (getResponse: Request -> Response)
      ensures this.getResponse == getResponse && passedOn == []
    {
      this.getResponse := getResponse;
      passedOn := [];
    }

    /** `__call__`: reject with 429 at the ceiling, otherwise count the request and pass it on. */
    method Call(cache: Cache, request: Request, now: int) returns (response: Response)
      modifies this, cache
      ensures cache.entries == GateSpec(old(cache.entries), request, now).1
      ensures GateSpec(old(cache.entries), request, now).0 ==>
                response == getResponse(request) && passedOn == old(passedOn) + [request]
                && cache.timeouts == old(cache.timeouts)[GateKey(ClientIp(request.meta), now) := WindowSeconds]
      ensures !GateSpec(old(cache.entries), request, now).0 ==>
                response == TooManyRequests && passedOn == old(passedOn) && cache.timeouts == old(cache.timeouts)
    {
      var clientIp := ClientIp(request.meta);
      var key := GateKey(clientIp, now);
      var maxRequests := MaxRequests(request.isAuthenticated);

      var stored := cache.Get(key);
      var count := if stored.Some? then stored.value else 0;
      if count >= maxRequests {
        return TooManyRequests;
      }
      cache.Set(key, count + 1, WindowSeconds);
      passedOn := passedOn + [request];
      response := getResponse(request);
    }
  }

  // ---------------------------------------------------------------------------
  // Several requests
  // ---------------------------------------------------------------------------

  /**
   * The decisions for a sequence of requests, the `i`-th arriving at second
   * `times[i]`, and the counters after them.
   */
  function Gate(entries: map<string, int>, requests: seq<Request>, times: seq<int>): (seq<bool>, map<string, int>)
    requires |times| == |requests|
    decreases |requests|
  {
    if requests == [] then ([], entries)
    else
      var (decisions, after) := Gate(entries, requests[..|requests| - 1], times[..|times| - 1]);
      var (admitted, next) := GateSpec(after, requests[|requests| - 1], times[|times| - 1]);
      (decisions + [admitted], next)
  }

  /**
   * Requests of one class from one client at any seconds of one minute,
   * starting from no counter: exactly the first `MaxRequests` are admitted,
   * every later one is rejected, and the counter stops at the ceiling.
   */
  lemma {:induction false} OneClassOneClient(entries: map<string, int>, requests: seq<Request>, times: seq<int>,
                                             now: int, ip: string, auth: bool)
    requires |times| == |requests|
    requires forall i :: 0 <= i < |requests| ==> ClientIp(requests[i].meta) == ip && requests[i].isAuthenticated == auth
    requires forall i :: 0 <= i < |times| ==> times[i] / WindowSeconds == now / WindowSeconds
    requires GateKey(ip, now) !in entries
    ensures FirstAdmitted(Gate(entries, requests, times), |requests|, MaxRequests(auth), GateKey(ip, now))
    decreases |requests|
  {
    if requests != [] {
      var init, initTimes := requests[..|requests| - 1], times[..|times| - 1];
      assert forall i :: 0 <= i < |initTimes| ==> initTimes[i] == times[i];
      OneClassOneClient(entries, init, initTimes, now, ip, auth);
      var last, t := requests[|requests| - 1], times[|times| - 1];
      var (before, after) := Gate(entries, init, initTimes);
      AppendDecision(before, after, last, t, now, ip, auth, |init|);
      assert Gate(entries, requests, times) == (before + [GateSpec(after, last, t).0], GateSpec(after, last, t).1);
    }
  }

  /**
   * `out` holds `n` decisions of which exactly the first `m` admit, and the
   * counter at `k` stands at the smaller of `n` and `m`.
   */
  ghost predicate FirstAdmitted(out: (seq<bool>, map<string, int>), n: nat, m: int, k: string)
  {
    && |out.0| == n
    && (forall i :: 0 <= i < n ==> (out.0[i] <==> i < m))
    && CountOf(out.1, k) == if n < m then n else m
  }

  /** Gating one more request of the client in the same minute extends `FirstAdmitted` by one. */
  lemma AppendDecision(before: seq<bool>, after: map<string, int>, request: Request, t: int, now: int,
                       ip: string, auth: bool, n: nat)
    requires ClientIp(request.meta) == ip && request.isAuthenticated == auth
    requires t / WindowSeconds == now / WindowSeconds
    requires FirstAdmitted((before, after), n, MaxRequests(auth), GateKey(ip, now))
    ensures FirstAdmitted((before + [GateSpec(after, request, t).0], GateSpec(after, request, t).1),
                          n + 1, MaxRequests(auth), GateKey(ip, now))
  {
    OneClientStep(after, request, t, now, ip, auth, n);
    AdmitFirst(before, GateSpec(after, request, t).0, MaxRequests(auth));
  }

  /** Appending one more decision that admits exactly while fewer than `m` came before keeps "the first `m` are admitted". */
  lemma AdmitFirst(before: seq<bool>, next: bool, m: int)
    requires forall i :: 0 <= i < |before| ==> (before[i] <==> i < m)
    requires next <==> |before| < m
    ensures forall i :: 0 <= i < |before| + 1 ==> ((before + [next])[i] <==> i < m)
  {
  }

  /** One more request of the client, in the same minute, after `n` earlier ones. */
  lemma OneClientStep(entries: map<string, int>, request: Request, t: int, now: int, ip: string, auth: bool, n: nat)
    requires ClientIp(request.meta) == ip && request.isAuthenticated == auth
    requires t / WindowSeconds == now / WindowSeconds
    requires CountOf(entries, GateKey(ip, now)) == if n < MaxRequests(auth) then n else MaxRequests(auth)
    ensures GateSpec(entries, request, t).0 <==> n < MaxRequests(auth)
    ensures CountOf(GateSpec(entries, request, t).1, GateKey(ip, now))
            == if n + 1 < MaxRequests(auth) then n + 1 else MaxRequests(auth)
  {
    assert GateKey(ip, t) == GateKey(ip, now);
  }

  /**
   * Anonymous and authenticated requests from one client share one counter:
   * once it is between the two ceilings, anonymous requests are rejected and
   * authenticated ones still admitted.
   */
  lemma SharedCounterAcrossClasses(entries: map<string, int>, anon: Request, auth: Request, now: int)
    requires !anon.isAuthenticated && auth.isAuthenticated && ClientIp(anon.meta) == ClientIp(auth.meta)
    requires MaxRequestsAnon <= CountOf(entries, GateKey(ClientIp(anon.meta), now)) < MaxRequestsAuth
    ensures !GateSpec(entries, anon, now).0 && GateSpec(entries, auth, now).0
  {
  }

  /**
   * Every counter the gate writes stays at or below 240, whatever else the
   * shared cache holds (the throttle's own counters may exceed it).
   */
  lemma {:induction false} CounterBounded(entries: map<string, int>, requests: seq<Request>, times: seq<int>)
    requires |times| == |requests|
    ensures var after := Gate(entries, requests, times).1;
            forall k :: k in after && (k !in entries || after[k] != entries[k]) ==> after[k] <= MaxRequestsAuth
    decreases |requests|
  {
    if requests != [] {
      var init, initTimes := requests[..|requests| - 1], times[..|times| - 1];
      CounterBounded(entries, init, initTimes);
      var after := Gate(entries, init, initTimes).1;
      var last, t := requests[|requests| - 1], times[|times| - 1];
      var k := GateKey(ClientIp(last.meta), t);
      var next := GateSpec(after, last, t).1;
      assert Gate(entries, requests, times).1 == next;
      forall k' | k' in next && (k' !in entries || next[k'] != entries[k'])
        ensures next[k'] <= MaxRequestsAuth
      {
        if k' != k {
          assert k' in after && after[k'] == next[k'];
        }
      }
    }
  }
}
