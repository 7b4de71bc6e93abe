/**
 The shared rate limiter: a fixed-window counter a client kept in Redis, with the in-memory limiter
 taking over for calls that get no answer.
 */
module RedisRateLimit {
  import opened Arithmetic
  import opened RateLimit

  datatype Counter = Counter(count: nat, expiresAt: Time)

  type Counters = map<Key, Counter>

  /** int(window.Seconds()), the expiry the script sets. */
  function WholeSeconds(window: int): int
    requires window > 0
  {
    window / SECOND
  }

  predicate Counting(counters: Counters, key: Key, now: Time) {
    key in counters && now < counters[key].expiresAt
  }

  /** The script: INCR, then EXPIRE on the first hit. A counter lasts until its expiry. */
  function Incr(counters: Counters, key: Key, now: Time, window: int): Counters
    requires window > 0
  {
    if Counting(counters, key, now) then
      counters[key := Counter(counters[key].count + 1, counters[key].expiresAt)]
    else
      counters[key := Counter(1, now + WholeSeconds(window) * SECOND)]
  }

  /** What becomes of the round trip: an answer, or an error with the script run on the server or not. */
  datatype Reply = Answered | Lost(applied: bool)

  datatype Hit = Hit(key: Key, at: Time, reply: Reply)

  function AfterHit(counters: Counters, hit: Hit, window: int): Counters
    requires window > 0
  {
    if hit.reply == Lost(false) then counters else Incr(counters, hit.key, hit.at, window)
  }

  predicate LetThrough(counters: Counters, hit: Hit, limit: int, window: int)
    requires window > 0
  {
    hit.reply.Answered? && AfterHit(counters, hit, window)[hit.key].count <= limit
  }

  ghost predicate HitsTimed(hits: seq<Hit>, from: Time, to: Time)
    decreases |hits|
  {
    from <= to && (hits == [] || (from <= hits[0].at && HitsTimed(hits[1..], hits[0].at, to)))
  }

  function AfterHits(counters: Counters, hits: seq<Hit>, window: int): Counters
    requires window > 0
    decreases |hits|
  {
    if hits == [] then counters else AfterHits(AfterHit(counters, hits[0], window), hits[1..], window)
  }

  /** Hits of one key let through on the counter's word. */
  function Counted(counters: Counters, hits: seq<Hit>, key: Key, limit: int, window: int): nat
    requires window > 0
    decreases |hits|
  {
    if hits == [] then 0 else
    (if hits[0].key == key && LetThrough(counters, hits[0], limit, window) then 1 else 0)
      + Counted(AfterHit(counters, hits[0], window), hits[1..], key, limit, window)
  }

  // ----- One window, then two -----

  function Room(counters: Counters, key: Key, limit: int): int
    requires key in counters
  {
    if counters[key].count >= limit then 0 else limit - counters[key].count
  }

  /** Within the counter's window only what is left of the limit gets through. */
  lemma {:induction false} WithinWindow(counters: Counters, hits: seq<Hit>, key: Key, limit: int, window: int, from: Time, to: Time)
    requires window > 0 && HitsTimed(hits, from, to) && key in counters && to < counters[key].expiresAt
    ensures Counted(counters, hits, key, limit, window) <= Room(counters, key, limit)
    decreases |hits|
  {
    if hits != [] {
      HitsEnd(hits[1..], hits[0].at, to);
      WithinWindow(AfterHit(counters, hits[0], window), hits[1..], key, limit, window, hits[0].at, to);
    }
  }

  lemma HitsEnd(hits: seq<Hit>, from: Time, to: Time)
    requires HitsTimed(hits, from, to)
    ensures from <= to
  {
  }

  /** Ending before a second window could run out, at most one more limit gets through. */
  lemma {:induction false} WithinTwoWindows(counters: Counters, hits: seq<Hit>, key: Key, limit: int, window: int, from: Time, to: Time)
    requires window > 0 && limit > 0 && HitsTimed(hits, from, to) && key in counters
    requires to < counters[key].expiresAt + WholeSeconds(window) * SECOND
    ensures Counted(counters, hits, key, limit, window) <= Room(counters, key, limit) + limit
    decreases |hits|
  {
    if hits != [] {
      HitsEnd(hits[1..], hits[0].at, to);
      var after := AfterHit(counters, hits[0], window);
      if hits[0].key == key && hits[0].reply != Lost(false) && !Counting(counters, key, hits[0].at) {
        WithinWindow(after, hits[1..], key, limit, window, hits[0].at, to);
      } else {
        WithinTwoWindows(after, hits[1..], key, limit, window, hits[0].at, to);
      }
    }
  }

  /** A client with no running counter: the first hit starts a window, and at most one more follows. */
  lemma {:induction false} FromScratch(counters: Counters, hits: seq<Hit>, key: Key, limit: int, window: int, from: Time, to: Time)
    requires window > 0 && limit > 0 && HitsTimed(hits, from, to) && !Counting(counters, key, from)
    requires to - from < 2 * (WholeSeconds(window) * SECOND)
    ensures Counted(counters, hits, key, limit, window) <= 2 * limit
    decreases |hits|
  {
    if hits != [] {
      HitsEnd(hits[1..], hits[0].at, to);
      var after := AfterHit(counters, hits[0], window);
      if hits[0].key == key && hits[0].reply != Lost(false) {
        WithinTwoWindows(after, hits[1..], key, limit, window, hits[0].at, to);
      } else {
        FromScratch(after, hits[1..], key, limit, window, hits[0].at, to);
      }
    }
  }

  // ----- Twice the limit in any window, exactly when the window is whole seconds -----

  ghost predicate CountersOk(counters: Counters, window: int, now: Time)
    requires window > 0
  {
    forall key :: key in counters ==>
      counters[key].count > 0 && counters[key].expiresAt <= now + WholeSeconds(window) * SECOND
  }

  lemma {:induction false} HitsKeepOk(counters: Counters, hits: seq<Hit>, window: int, from: Time, to: Time)
    requires window > 0 && CountersOk(counters, window, from) && HitsTimed(hits, from, to)
    ensures CountersOk(AfterHits(counters, hits, window), window, to)
    decreases |hits|
  {
    if hits != [] {
      HitsKeepOk(AfterHit(counters, hits[0], window), hits[1..], window, hits[0].at, to);
    }
  }

  /** The expiry is the window itself, or one hit a window is all that gets through anyway. */
  predicate Exact(limit: int, window: int) {
    window >= SECOND && (window % SECOND == 0 || limit == 1)
  }

  lemma {:induction false} ExpiredThenScratch(counters: Counters, hits: seq<Hit>, key: Key, window: int, from: Time, to: Time)
    requires window >= SECOND && HitsTimed(hits, from, to) && Counting(counters, key, from)
    requires counters[key].count >= 1 && to - from <= window
    ensures Counted(counters, hits, key, 1, window) <= 2
    decreases |hits|
  {
    if hits != [] {
      var hit, after := hits[0], AfterHit(counters, hits[0], window);
      HitsEnd(hits[1..], hit.at, to);
      assert window < 2 * (WholeSeconds(window) * SECOND);
      if hit.key != key || hit.reply == Lost(false) {
        if Counting(after, key, hit.at) {
          ExpiredThenScratch(after, hits[1..], key, window, hit.at, to);
        } else {
          FromScratch(after, hits[1..], key, 1, window, hit.at, to);
        }
      } else if Counting(counters, key, hit.at) {
        ExpiredThenScratch(after, hits[1..], key, window, hit.at, to);
      } else {
        WithinTwoWindows(after, hits[1..], key, 1, window, hit.at, to);
      }
    }
  }

  lemma AtMostTwiceTheLimit(counters: Counters, hits: seq<Hit>, key: Key, limit: int, window: int, from: Time, to: Time)
    requires limit > 0 && Exact(limit, window) && CountersOk(counters, window, from)
    requires HitsTimed(hits, from, to) && to - from <= window
    ensures Counted(counters, hits, key, limit, window) <= 2 * limit
  {
    assert window < 2 * (WholeSeconds(window) * SECOND);
    if !Counting(counters, key, from) {
      FromScratch(counters, hits, key, limit, window, from, to);
    } else if window % SECOND == 0 {
      WithinTwoWindows(counters, hits, key, limit, window, from, to);
    } else {
      ExpiredThenScratch(counters, hits, key, window, from, to);
    }
  }

  /** In every stretch of one window, after every history, every client is let through at most twice
      the limit. */
  ghost predicate TwiceTheLimit(limit: int, window: int)
    requires window > 0
  {
    forall before, during, key, from: Time, to: Time ::
      HitsTimed(before, 0, from) && HitsTimed(during, from, to) && to - from <= window ==>
      Counted(AfterHits(map[], before, window), during, key, limit, window) <= 2 * limit
  }

  function Same(key: Key, at: Time, n: nat): seq<Hit> {
    if n == 0 then [] else [Hit(key, at, Answered)] + Same(key, at, n - 1)
  }

  lemma {:induction false} SameTimed(key: Key, at: Time, n: nat, from: Time, rest: seq<Hit>, to: Time)
    requires from <= at <= to && HitsTimed(rest, at, to)
    ensures HitsTimed(Same(key, at, n) + rest, from, to)
    decreases n
  {
    if n == 0 {
      assert Same(key, at, n) + rest == rest;
    } else {
      SameTimed(key, at, n - 1, at, rest, to);
      assert (Same(key, at, n) + rest)[1..] == Same(key, at, n - 1) + rest;
    }
  }

  lemma Overwrite(counters: Counters, key: Key, a: Counter, b: Counter)
    ensures counters[key := a][key := b] == counters[key := b]
  {
  }

  /** The first of n hits at one instant is let through and leaves the others. */
  lemma SameFirst(counters: Counters, key: Key, at: Time, n: nat, rest: seq<Hit>, limit: int, window: int, next: Counters)
    requires window > 0 && n > 0 && next == Incr(counters, key, at, window) && next[key].count <= limit
    ensures Counted(counters, Same(key, at, n) + rest, key, limit, window) ==
      1 + Counted(next, Same(key, at, n - 1) + rest, key, limit, window)
  {
    var hits := Same(key, at, n) + rest;
    assert hits[0] == Hit(key, at, Answered) && hits[1..] == Same(key, at, n - 1) + rest;
  }

  /** n hits at one instant inside a running window. */
  lemma {:induction false} SameCounted(counters: Counters, key: Key, at: Time, n: nat, rest: seq<Hit>, limit: int, window: int)
    requires window > 0 && Counting(counters, key, at) && counters[key].count + n <= limit
    ensures var after := counters[key := Counter(counters[key].count + n, counters[key].expiresAt)];
      Counted(counters, Same(key, at, n) + rest, key, limit, window) == n + Counted(after, rest, key, limit, window)
    decreases n
  {
    if n == 0 {
      assert Same(key, at, n) + rest == rest;
      assert counters[key := counters[key]] == counters;
    } else {
      var next := counters[key := Counter(counters[key].count + 1, counters[key].expiresAt)];
      SameFirst(counters, key, at, n, rest, limit, window, next);
      SameCounted(next, key, at, n - 1, rest, limit, window);
      Overwrite(counters, key, next[key], Counter(counters[key].count + n, counters[key].expiresAt));
    }
  }

  lemma FirstHit(counters: Counters, key: Key, at: Time, window: int, expiry: int)
    requires window >= SECOND && !Counting(counters, key, at) && expiry == at + WholeSeconds(window) * SECOND
    ensures at < expiry && Incr(counters, key, at, window) == counters[key := Counter(1, expiry)]
  {
  }

  /** limit hits at one instant when no window is running. */
  lemma FullWindow(counters: Counters, key: Key, at: Time, rest: seq<Hit>, limit: int, window: int)
    requires window >= SECOND && limit > 0 && !Counting(counters, key, at)
    ensures var after := counters[key := Counter(limit, at + WholeSeconds(window) * SECOND)];
      Counted(counters, Same(key, at, limit) + rest, key, limit, window) == limit + Counted(after, rest, key, limit, window)
  {
    var expiry := at + WholeSeconds(window) * SECOND;
    var next := counters[key := Counter(1, expiry)];
    FirstHit(counters, key, at, window, expiry);
    SameFirst(counters, key, at, limit, rest, limit, window, next);
    SameCounted(next, key, at, limit - 1, rest, limit, window);
    Overwrite(counters, key, Counter(1, expiry), Counter(limit, expiry));
  }

  /** The tail of one window, a whole window, and the start of a third. */
  function Straddle(key: Key, limit: int, w: Time): seq<Hit>
    requires limit > 1 && w > 0
  {
    Same(key, w - 1, limit - 1) + (Same(key, w, limit) + (Same(key, w + w, limit) + []))
  }

  lemma StraddleTimed(key: Key, limit: int, w: Time)
    requires limit > 1 && w > 0
    ensures HitsTimed(Straddle(key, limit, w), w - 1, w + w)
  {
    var third := Same(key, w + w, limit) + [];
    SameTimed(key, w + w, limit, w, [], w + w);
    SameTimed(key, w, limit, w - 1, third, w + w);
    SameTimed(key, w - 1, limit - 1, w - 1, Same(key, w, limit) + third, w + w);
  }

  lemma StraddleCounted(key: Key, limit: int, window: int)
    requires limit > 1 && window >= SECOND
    ensures var w := WholeSeconds(window) * SECOND;
      Counted(map[key := Counter(1, w)], Straddle(key, limit, w), key, limit, window) == 3 * limit - 1
  {
    var w := WholeSeconds(window) * SECOND;
    var c0: Counters := map[key := Counter(1, w)];
    var third := Same(key, w + w, limit) + [];
    SameCounted(c0, key, w - 1, limit - 1, Same(key, w, limit) + third, limit, window);
    var c1 := c0[key := Counter(limit, w)];
    FullWindow(c1, key, w, third, limit, window);
    FullWindow(c1[key := Counter(limit, w + w)], key, w + w, [], limit, window);
  }

  /** With a fractional window an interval of one window can touch three counting windows. */
  lemma ThreeWindows(key: Key, limit: int, window: int)
    requires limit > 1 && window >= SECOND && window % SECOND != 0
    ensures !TwiceTheLimit(limit, window)
  {
    var w := WholeSeconds(window) * SECOND;
    var before := [Hit(key, 0, Answered)];
    assert before[1..] == [];
    assert AfterHits(map[], before, window) == map[key := Counter(1, w)];
    assert HitsTimed(before, 0, w - 1);
    StraddleTimed(key, limit, w);
    StraddleCounted(key, limit, window);
    assert Counted(AfterHits(map[], before, window), Straddle(key, limit, w), key, limit, window) > 2 * limit;
  }

  /** The calls of one key that Redis answered. */
  function AnsweredTo(hits: seq<Hit>, key: Key): nat {
    if hits == [] then 0 else
    (if hits[0].key == key && hits[0].reply.Answered? then 1 else 0) + AnsweredTo(hits[1..], key)
  }

  lemma {:induction false} EveryHitIsFirst(counters: Counters, hits: seq<Hit>, key: Key, limit: int, window: int, from: Time, to: Time)
    requires 0 < window < SECOND && limit > 0 && HitsTimed(hits, from, to) && !Counting(counters, key, from)
    ensures Counted(counters, hits, key, limit, window) == AnsweredTo(hits, key)
    decreases |hits|
  {
    if hits != [] {
      EveryHitIsFirst(AfterHit(counters, hits[0], window), hits[1..], key, limit, window, hits[0].at, to);
    }
  }

  /** With a window under a second every expiry is immediate, and after any history every answered call of
      any client is let through. */
  lemma NoExpiryNoLimit(before: seq<Hit>, during: seq<Hit>, key: Key, limit: int, window: int, from: Time, to: Time)
    requires 0 < window < SECOND && limit > 0 && HitsTimed(before, 0, from) && HitsTimed(during, from, to)
    ensures Counted(AfterHits(map[], before, window), during, key, limit, window) == AnsweredTo(during, key)
  {
    HitsKeepOk(map[], before, window, 0, from);
    EveryHitIsFirst(AfterHits(map[], before, window), during, key, limit, window, from, to);
  }

  lemma {:induction false} SameAnswered(key: Key, at: Time, n: nat)
    ensures AnsweredTo(Same(key, at, n), key) == n
    decreases n
  {
    if n > 0 {
      assert Same(key, at, n)[1..] == Same(key, at, n - 1);
      SameAnswered(key, at, n - 1);
    }
  }

  lemma TwiceTheLimitIff(limit: int, window: int)
    requires limit > 0 && window > 0
    ensures TwiceTheLimit(limit, window) <==> Exact(limit, window)
  {
    if Exact(limit, window) {
      forall before, during, key, from: Time, to: Time
        | HitsTimed(before, 0, from) && HitsTimed(during, from, to) && to - from <= window
        ensures Counted(AfterHits(map[], before, window), during, key, limit, window) <= 2 * limit
      {
        HitsKeepOk(map[], before, window, 0, from);
        AtMostTwiceTheLimit(AfterHits(map[], before, window), during, key, limit, window, from, to);
      }
    } else if window < SECOND {
      var n := 2 * limit + 1;
      SameTimed("client", 0, n, 0, [], 0);
      assert Same("client", 0, n) + [] == Same("client", 0, n);
      NoExpiryNoLimit([], Same("client", 0, n), "client", limit, window, 0, 0);
      SameAnswered("client", 0, n);
      assert HitsTimed([], 0, 0) && AfterHits(map[], [], window) == map[];
    } else {
      ThreeWindows("client", limit, window);
    }
  }

  // ----- Redis and the local fallback together -----

  /** The calls the fallback limiter answers. */
  function LocalRequests(hits: seq<Hit>): seq<Request> {
    if hits == [] then [] else
    (if hits[0].reply.Lost? then [Request(hits[0].key, hits[0].at)] else []) + LocalRequests(hits[1..])
  }

  lemma {:induction false} LocalTimed(hits: seq<Hit>, from: Time, to: Time)
    requires HitsTimed(hits, from, to)
    ensures Timed(LocalRequests(hits), from, to)
    decreases |hits|
  {
    if hits != [] {
      LocalTimed(hits[1..], hits[0].at, to);
      var rest := LocalRequests(hits[1..]);
      if hits[0].reply.Lost? {
        assert ([Request(hits[0].key, hits[0].at)] + rest)[1..] == rest;
      } else {
        assert [] + rest == rest;
        TimedEarlier(rest, from, hits[0].at, to);
      }
    }
  }

  datatype Both = Both(counters: Counters, local: State)

  /** One call of RedisRateLimiter.Allow. */
  function ServeHit(p: Params, limit: int, s: Both, hit: Hit): Answer<Both>
    requires p.window > 0
  {
    var counters := AfterHit(s.counters, hit, p.window);
    if hit.reply.Lost? then
      var a := Serve(p, s.local, hit.key, hit.at);
      Answer(Both(counters, a.state), a.ok)
    else
      Answer(Both(counters, s.local), counters[hit.key].count <= limit)
  }

  function AfterServing(p: Params, limit: int, s: Both, hits: seq<Hit>): Both
    requires p.window > 0
    decreases |hits|
  {
    if hits == [] then s else AfterServing(p, limit, ServeHit(p, limit, s, hits[0]).state, hits[1..])
  }

  /** Calls of one key that were let through, by Redis or by the fallback. */
  function AdmittedInAll(p: Params, limit: int, s: Both, hits: seq<Hit>, key: Key): nat
    requires p.window > 0
    decreases |hits|
  {
    if hits == [] then 0 else
    (if hits[0].key == key && ServeHit(p, limit, s, hits[0]).ok then 1 else 0)
      + AdmittedInAll(p, limit, ServeHit(p, limit, s, hits[0]).state, hits[1..], key)
  }

  /** The counter and the fallback each see their own calls. */
  lemma {:induction false} ServingSplits(p: Params, limit: int, s: Both, hits: seq<Hit>, key: Key)
    requires p.window > 0
    ensures var local := LocalRequests(hits);
      && AdmittedInAll(p, limit, s, hits, key)
         == Counted(s.counters, hits, key, limit, p.window) + Admitted(local, Answers(p, s.local, local), key)
      && AfterServing(p, limit, s, hits) == Both(AfterHits(s.counters, hits, p.window), After(p, s.local, local))
    decreases |hits|
  {
    if hits != [] {
      var local, rest := LocalRequests(hits), LocalRequests(hits[1..]);
      ServingSplits(p, limit, ServeHit(p, limit, s, hits[0]).state, hits[1..], key);
      if hits[0].reply.Lost? {
        assert local[1..] == rest;
        var a := Serve(p, s.local, hits[0].key, hits[0].at);
        assert Answers(p, s.local, local)[1..] == Answers(p, a.state, rest);
      } else {
        assert local == rest;
      }
    }
  }

  /** Whenever calls switch between Redis and the fallback, in any stretch of one window, after any
      history, a client is let through at most 2 * limit + burst + requests times. */
  lemma AdmittedAcrossFallback(p: Params, limit: int, before: seq<Hit>, during: seq<Hit>, key: Key, from: Time, to: Time)
    requires p.Valid() && IdleIsFull(p) && limit > 0 && Exact(limit, p.window)
    requires HitsTimed(before, 0, from) && HitsTimed(during, from, to) && to - from <= p.window
    ensures AdmittedInAll(p, limit, AfterServing(p, limit, Both(map[], EMPTY), before), during, key)
      <= 2 * limit + p.burst + p.requests
  {
    var start := Both(map[], EMPTY);
    var s := AfterServing(p, limit, start, before);
    var local := LocalRequests(during);
    ServingSplits(p, limit, start, before, key);
    ServingSplits(p, limit, s, during, key);
    LocalTimed(before, 0, from);
    LocalTimed(during, from, to);
    HitsKeepOk(map[], before, p.window, 0, from);
    AtMostTwiceTheLimit(s.counters, during, key, limit, p.window, from, to);
    AdmittedInInterval(p, LocalRequests(before), local, key, from, to);
    FewEnough(p, Admitted(local, Answers(p, s.local, local), key), to - from);
  }

  lemma FewEnough(p: Params, n: int, length: int)
    requires p.Valid() && n * p.window <= p.burst * p.window + p.requests * length && length <= p.window
    ensures n <= p.burst + p.requests
  {
    MulMono(p.requests, length, p.window);
    MulAdd(p.window, p.burst, p.requests);
    if n > p.burst + p.requests {
      MulMono(p.window, p.burst + p.requests + 1, n);
    }
  }

  // ----- The limiter object -----

  class RedisRateLimiter {
    const enabled: bool
    const limit: int
    const window: int
    const retryAfter: int
    const fallback: IPRateLimiter
    /** The counters on the Redis server. */
    var counters: Counters

    constructor (cfg: Config)
      ensures enabled == cfg.enabled && limit == ParamsOf(cfg).requests && window == ParamsOf(cfg).window
      ensures limit > 0 && window > 0 && retryAfter == RetryAfterSeconds(limit, window)
      ensures fresh(fallback) && fallback.enabled == enabled && fallback.params == ParamsOf(cfg)
      ensures counters == map[] && fallback.Snapshot() == EMPTY
    {
      var requests := if cfg.requests <= 0 then 1 else cfg.requests;
      var window' := if cfg.window <= 0 then MINUTE else cfg.window;
      fallback := new IPRateLimiter(cfg.(requests := requests, window := window'));
      enabled, limit, window := cfg.enabled, requests, window';
      retryAfter := RetryAfterSeconds(requests, window');
      counters := map[];
    }

    ghost predicate Valid()
      reads this, fallback
    {
      window > 0 && fallback.params.window == window && fallback.enabled == enabled
    }

    function Snapshot(): Both
      reads this, fallback
    {
      Both(counters, fallback.Snapshot())
    }

    method Allow(key: Key, now: Time, reply: Reply) returns (ok: bool)
      requires Valid()
      modifies this, fallback
      ensures Valid()
      ensures !enabled ==> ok && Snapshot() == old(Snapshot())
      ensures enabled ==> Answer(Snapshot(), ok) == ServeHit(fallback.params, limit, old(Snapshot()), Hit(key, now, reply))
    {
      if !enabled {
        return true;
      }
      if reply != Lost(false) {
        counters := Incr(counters, key, now, window);
      }
      if reply.Lost? {
        ok := fallback.Allow(key, now, now);
        return ok;
      }
      return counters[key].count <= limit;
    }
  }
}
