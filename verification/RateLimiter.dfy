/** The in-process sliding-window rate limiter.  Times are exact reals. */
module RateLimiter {
  import opened Seqs

  const WINDOW: real := 60.0

  type Hits = map<string, seq<real>>

  datatype Request = Request(key: string, now: real)

  predicate EndsWith(s: string, suffix: string) {
    |suffix| <= |s| && s[|s| - |suffix|..] == suffix
  }

  /** Health probes and metrics bypass the limiter. */
  predicate Exempt(path: string) {
    EndsWith(path, "/health") || EndsWith(path, "/ready") || EndsWith(path, "/metrics")
  }

  lemma EndsWithIff(s: string, suffix: string)
    ensures EndsWith(s, suffix) <==> exists pre :: s == pre + suffix
  {
    if EndsWith(s, suffix) {
      assert s == s[..|s| - |suffix|] + suffix;
    }
  }

  /** The limiter is bypassed by the paths that end in one of three names, and by no other. */
  lemma ExemptIff(path: string)
    ensures Exempt(path) <==>
            exists pre: string :: path == pre + "/health" || path == pre + "/ready" || path == pre + "/metrics"
  {
    EndsWithIff(path, "/health");
    EndsWithIff(path, "/ready");
    EndsWithIff(path, "/metrics");
  }

  function WindowOf(hits: Hits, key: string): seq<real> {
    if key in hits then hits[key] else []
  }

  /** Pop the front of the deque while it is older than the window. */
  function PopOld(w: seq<real>, now: real): seq<real> {
    if w != [] && w[0] < now - WINDOW then PopOld(w[1..], now) else w
  }

  predicate Admits(limit: int, hits: Hits, r: Request) {
    |PopOld(WindowOf(hits, r.key), r.now)| < limit
  }

  function Handle(limit: int, hits: Hits, r: Request): Hits {
    var w := PopOld(WindowOf(hits, r.key), r.now);
    hits[r.key := if |w| < limit then w + [r.now] else w]
  }

  class RateLimitMiddleware {
    const limit: int
    var hits: Hits

    constructor (perMinute: int)
      ensures limit == perMinute && hits == map[]
    {
      limit, hits := perMinute, map[];
    }

    method Dispatch(path: string, key: string, now: real) returns (admitted: bool)
      modifies this
      ensures (exists pre: string ::
                 path == pre + "/health" || path == pre + "/ready" || path == pre + "/metrics") ==>
                admitted && hits == old(hits)
      ensures Exempt(path) ==> admitted && hits == old(hits)
      ensures !Exempt(path) ==> admitted == Admits(limit, old(hits), Request(key, now))
      ensures !Exempt(path) ==> hits == Handle(limit, old(hits), Request(key, now))
    {
      ExemptIff(path);
      if Exempt(path) {
        return true;
      }
      var window := WindowOf(hits, key);
      while window != [] && window[0] < now - WINDOW
        invariant PopOld(window, now) == PopOld(WindowOf(old(hits), key), now)
        decreases |window|
      {
        window := window[1..];
      }
      if |window| >= limit {
        hits := hits[key := window];
        return false;
      }
      window := window + [now];
      hits := hits[key := window];
      return true;
    }
  }

  // ----- runs and their full history ---------------------------------------------------

  function After(limit: int, reqs: seq<Request>): Hits {
    if reqs == [] then map[] else Handle(limit, After(limit, reqs[..|reqs| - 1]), reqs[|reqs| - 1])
  }

  /** Every time at which a request of the key was ever admitted. */
  function Accepted(limit: int, reqs: seq<Request>, key: string): seq<real> {
    if reqs == [] then []
    else
      var before, last := reqs[..|reqs| - 1], reqs[|reqs| - 1];
      if last.key == key && Admits(limit, After(limit, before), last)
      then Accepted(limit, before, key) + [last.now]
      else Accepted(limit, before, key)
  }

  ghost predicate Clocked(reqs: seq<Request>) {
    forall i, j | 0 <= i < j < |reqs| :: reqs[i].now <= reqs[j].now
  }

  function Since(lo: real): real -> bool {
    (t: real) => lo <= t
  }

  function Between(lo: real, hi: real): real -> bool {
    (t: real) => lo <= t <= hi
  }

  /** The naive count over a whole history. */
  function CountIn(ts: seq<real>, lo: real, hi: real): nat {
    |Filter(ts, Between(lo, hi))|
  }

  ghost predicate Ascending(ts: seq<real>) {
    forall i, j | 0 <= i < j < |ts| :: ts[i] <= ts[j]
  }

  function Recent(ts: seq<real>, now: real): seq<real> {
    Filter(ts, Since(now - WINDOW))
  }

  ghost predicate UpTo(ts: seq<real>, clock: real) {
    forall i | 0 <= i < |ts| :: ts[i] <= clock
  }

  /** Popping the front of a sorted deque keeps exactly the recent times. */
  lemma {:induction false} PopOldFilters(w: seq<real>, now: real)
    requires Ascending(w)
    ensures PopOld(w, now) == Recent(w, now)
    ensures Ascending(PopOld(w, now))
    ensures forall clock | UpTo(w, clock) :: UpTo(PopOld(w, now), clock)
  {
    if w != [] && w[0] < now - WINDOW {
      PopOldFilters(w[1..], now);
      FilterConcat([w[0]], w[1..], Since(now - WINDOW));
      assert w == [w[0]] + w[1..];
    } else {
      FilterFull(w, Since(now - WINDOW));
    }
  }

  /** The deque and the accepted history have the same recent times, now and at any later time. */
  ghost predicate Tracks(w: seq<real>, acc: seq<real>, clock: real) {
    && Ascending(w)
    && UpTo(w, clock)
    && UpTo(acc, clock)
    && forall now | now >= clock :: Recent(w, now) == Recent(acc, now)
  }

  lemma TracksPopped(w: seq<real>, acc: seq<real>, clock: real)
    requires Tracks(w, acc, clock)
    ensures Tracks(PopOld(w, clock), acc, clock)
  {
    PopOldFilters(w, clock);
    forall now | now >= clock ensures Recent(PopOld(w, clock), now) == Recent(acc, now) {
      FilterFilter(w, Since(clock - WINDOW), Since(now - WINDOW), Since(now - WINDOW));
    }
  }

  lemma TracksAppended(w: seq<real>, acc: seq<real>, clock: real)
    requires Tracks(w, acc, clock)
    ensures Tracks(w + [clock], acc + [clock], clock)
  {
    forall now | now >= clock ensures Recent(w + [clock], now) == Recent(acc + [clock], now) {
      assert Recent(w, now) == Recent(acc, now);
      FilterConcat(w, [clock], Since(now - WINDOW));
      FilterConcat(acc, [clock], Since(now - WINDOW));
    }
  }

  lemma {:induction false} SinceIsBetween(ts: seq<real>, lo: real, hi: real)
    requires UpTo(ts, hi)
    ensures Filter(ts, Since(lo)) == Filter(ts, Between(lo, hi))
  {
    if ts != [] {
      SinceIsBetween(ts[..|ts| - 1], lo, hi);
    }
  }

  ghost predicate Before(reqs: seq<Request>, clock: real) {
    forall i | 0 <= i < |reqs| :: reqs[i].now <= clock
  }

  /** After any run with a nondecreasing clock, every key's deque tracks its full history. */
  lemma {:induction false} DequeTracksHistory(limit: int, reqs: seq<Request>, key: string, clock: real)
    requires Clocked(reqs) && Before(reqs, clock)
    ensures Tracks(WindowOf(After(limit, reqs), key), Accepted(limit, reqs, key), clock)
    decreases |reqs|
  {
    if reqs != [] {
      var before, last := reqs[..|reqs| - 1], reqs[|reqs| - 1];
      DequeTracksHistory(limit, before, key, last.now);
      if last.key == key {
        var w, acc := WindowOf(After(limit, before), key), Accepted(limit, before, key);
        TracksPopped(w, acc, last.now);
        TracksAppended(PopOld(w, last.now), acc, last.now);
      }
    }
  }

  /** Pruned at any later time, the deque is sorted and is exactly the accepted times of the last 60 seconds. */
  lemma PrunedDequeIsRecentHistory(limit: int, reqs: seq<Request>, key: string, now: real)
    requires Clocked(reqs) && Before(reqs, now)
    ensures Ascending(WindowOf(After(limit, reqs), key))
    ensures PopOld(WindowOf(After(limit, reqs), key), now) ==
            Filter(Accepted(limit, reqs, key), Between(now - 60.0, now))
  {
    DequeTracksHistory(limit, reqs, key, now);
    PopOldFilters(WindowOf(After(limit, reqs), key), now);
    SinceIsBetween(Accepted(limit, reqs, key), now - WINDOW, now);
  }

  /** A request is refused exactly when `limit` accepted ones lie in the closed last 60 seconds. */
  lemma RefusedIffWindowFull(limit: int, reqs: seq<Request>, r: Request)
    requires Clocked(reqs) && Before(reqs, r.now)
    ensures !Admits(limit, After(limit, reqs), r) <==>
            CountIn(Accepted(limit, reqs, r.key), r.now - 60.0, r.now) >= limit
  {
    PrunedDequeIsRecentHistory(limit, reqs, r.key, r.now);
  }

  /** Every closed 60-second interval holds at most `limit` accepts. */
  lemma {:induction false} AtMostLimitPerWindow(limit: int, reqs: seq<Request>, key: string, lo: real)
    requires Clocked(reqs)
    ensures CountIn(Accepted(limit, reqs, key), lo, lo + 60.0) <= if limit > 0 then limit else 0
  {
    if reqs != [] {
      var before, last := reqs[..|reqs| - 1], reqs[|reqs| - 1];
      AtMostLimitPerWindow(limit, before, key, lo);
      if last.key == key && Admits(limit, After(limit, before), last) {
        AdmittedFits(limit, before, last, lo);
        assert Accepted(limit, reqs, key) == Accepted(limit, before, key) + [last.now];
      } else {
        assert Accepted(limit, reqs, key) == Accepted(limit, before, key);
      }
    }
  }

  lemma AdmittedFits(limit: int, reqs: seq<Request>, r: Request, lo: real)
    requires Clocked(reqs) && Before(reqs, r.now) && Admits(limit, After(limit, reqs), r)
    ensures CountIn(Accepted(limit, reqs, r.key) + [r.now], lo, lo + WINDOW) <=
            if lo <= r.now <= lo + WINDOW then limit else CountIn(Accepted(limit, reqs, r.key), lo, lo + WINDOW)
  {
    RefusedIffWindowFull(limit, reqs, r);
    DequeTracksHistory(limit, reqs, r.key, r.now);
    AcceptedFits(Accepted(limit, reqs, r.key), r.now, lo);
  }

  lemma AcceptedFits(acc: seq<real>, now: real, lo: real)
    requires UpTo(acc, now)
    ensures CountIn(acc + [now], lo, lo + WINDOW) <=
            if lo <= now <= lo + WINDOW then CountIn(acc, now - WINDOW, now) + 1 else CountIn(acc, lo, lo + WINDOW)
  {
    FilterConcat(acc, [now], Between(lo, lo + WINDOW));
    if lo <= now <= lo + WINDOW {
      FilterMonotone(acc, Between(lo, lo + WINDOW), Between(now - WINDOW, now));
    }
  }

  /** A key with no accept for strictly more than 60 seconds is admitted. */
  lemma QuietKeyIsAdmitted(limit: int, reqs: seq<Request>, r: Request)
    requires limit >= 1 && Clocked(reqs) && Before(reqs, r.now)
    requires forall t | t in Accepted(limit, reqs, r.key) :: t < r.now - 60.0
    ensures Admits(limit, After(limit, reqs), r)
  {
    RefusedIffWindowFull(limit, reqs, r);
    var acc := Accepted(limit, reqs, r.key);
    forall i | 0 <= i < |acc| ensures !Between(r.now - WINDOW, r.now)(acc[i]) {
      assert acc[i] in acc;
    }
    FilterEmpty(acc, Between(r.now - WINDOW, r.now));
  }

  function ForKey(key: string): Request -> bool {
    (r: Request) => r.key == key
  }

  /** Keys do not interfere: a key's deque and history are those of its own requests alone. */
  lemma {:induction false} KeysAreIndependent(limit: int, reqs: seq<Request>, key: string)
    ensures WindowOf(After(limit, reqs), key) == WindowOf(After(limit, Filter(reqs, ForKey(key))), key)
    ensures Accepted(limit, reqs, key) == Accepted(limit, Filter(reqs, ForKey(key)), key)
    decreases |reqs|
  {
    if reqs != [] {
      var before, last := reqs[..|reqs| - 1], reqs[|reqs| - 1];
      KeysAreIndependent(limit, before, key);
      var own := Filter(before, ForKey(key));
      assert before + [last] == reqs;
      assert Filter(reqs, ForKey(key)) == if last.key == key then own + [last] else own;
      StaysAlike(limit, before, own, last, key);
    }
  }

  lemma StaysAlike(limit: int, a: seq<Request>, b: seq<Request>, r: Request, key: string)
    requires WindowOf(After(limit, a), key) == WindowOf(After(limit, b), key)
    requires Accepted(limit, a, key) == Accepted(limit, b, key)
    ensures var b' := if r.key == key then b + [r] else b;
            && WindowOf(After(limit, a + [r]), key) == WindowOf(After(limit, b'), key)
            && Accepted(limit, a + [r], key) == Accepted(limit, b', key)
  {
    OneMore(limit, a, r, key);
    OneMore(limit, b, r, key);
  }

  lemma OneMore(limit: int, reqs: seq<Request>, r: Request, key: string)
    ensures var w, acc := WindowOf(After(limit, reqs), key), Accepted(limit, reqs, key);
            var w', acc' := WindowOf(After(limit, reqs + [r]), key), Accepted(limit, reqs + [r], key);
            var p := PopOld(w, r.now);
            && w' == (if r.key != key then w else if |p| < limit then p + [r.now] else p)
            && acc' == if r.key == key && |p| < limit then acc + [r.now] else acc
  {
    assert (reqs + [r])[..|reqs|] == reqs;
  }
}
