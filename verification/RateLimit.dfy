/**
 The in-memory rate limiter: one token bucket a client, with idle clients pruned at most once per ttl.

 Times are nanoseconds on one nondecreasing clock. A bucket's level is kept in units of 1/window of a
 token, so that refilling (requests tokens a window) and taking a token are exact on integers.
 */
module RateLimit {
  import opened Arithmetic

  type Key = string
  type Time = nat

  const SECOND: int := 1_000_000_000
  const MINUTE: int := 60 * SECOND

  datatype Config = Config(enabled: bool, requests: int, window: int, burst: int)

  /** The settings of a limiter after NewIPRateLimiter has replaced the unset ones. */
  datatype Params = Params(requests: int, window: int, burst: int, ttl: int) {
    predicate Valid() {
      requests > 0 && window > 0 && burst > 0 && ttl > 0
    }

    function Full(): int {
      burst * window
    }
  }

  function MaxDuration(a: int, b: int): int {
    if a > b then a else b
  }

  function ParamsOf(cfg: Config): (p: Params)
    ensures p.Valid() && p.ttl >= 2 * p.window && p.ttl >= MINUTE
    ensures cfg.requests > 0 && cfg.window > 0 ==> p.requests == cfg.requests && p.window == cfg.window
    ensures cfg.burst > 0 ==> p.burst == cfg.burst
  {
    var requests := if cfg.requests <= 0 then 1 else cfg.requests;
    var window := if cfg.window <= 0 then MINUTE else cfg.window;
    var burst := if cfg.burst <= 0 then requests else cfg.burst;
    Params(requests, window, burst, MaxDuration(2 * window, MINUTE))
  }

  // ----- One bucket -----

  datatype Bucket = Bucket(level: int, last: Time)

  function NewBucket(p: Params): Bucket {
    Bucket(p.Full(), 0)
  }

  function Refilled(p: Params, b: Bucket, now: Time): int {
    var elapsed := if now > b.last then now - b.last else 0;
    var level := b.level + p.requests * elapsed;
    if level > p.Full() then p.Full() else level
  }

  /** Even when the clock has stepped back, no level falls by waiting. */
  lemma WaitingNeverDrains(p: Params, b: Bucket, now: Time)
    requires p.Valid() && b.level <= p.Full()
    ensures b.level <= Refilled(p, b, now) <= p.Full()
    ensures now <= b.last ==> Refilled(p, b, now) == b.level
  {
    if now > b.last {
      MulMono(p.requests, 0, now - b.last);
    }
  }

  datatype Taken = Taken(bucket: Bucket, ok: bool)

  function Take(p: Params, b: Bucket, now: Time): Taken {
    var level := Refilled(p, b, now);
    if level >= p.window then Taken(Bucket(level - p.window, now), true) else Taken(b, false)
  }

  ghost predicate BucketOk(p: Params, b: Bucket, now: Time) {
    0 <= b.level <= p.Full() && b.last <= now
  }

  /** A bucket gains requests times the time that passes, up to its capacity. */
  lemma RefillRate(p: Params, b: Bucket, t: Time, u: Time)
    requires p.Valid() && BucketOk(p, b, t) && t <= u
    ensures 0 <= Refilled(p, b, t) <= Refilled(p, b, u) <= Refilled(p, b, t) + p.requests * (u - t)
    ensures Refilled(p, b, u) <= p.Full()
  {
    MulAdd(p.requests, t - b.last, u - t);
    assert (t - b.last) + (u - t) == u - b.last;
    MulMono(p.requests, 0, t - b.last);
    MulMono(p.requests, 0, u - t);
    MulMono(p.window, 0, p.burst);
  }

  lemma TakeKeepsOk(p: Params, b: Bucket, now: Time)
    requires p.Valid() && BucketOk(p, b, now)
    ensures BucketOk(p, Take(p, b, now).bucket, now)
    ensures Refilled(p, Take(p, b, now).bucket, now) == Refilled(p, b, now) - (if Take(p, b, now).ok then p.window else 0)
  {
    RefillRate(p, b, now, now);
  }

  lemma NewBucketIsFull(p: Params, now: Time)
    requires p.Valid()
    ensures BucketOk(p, NewBucket(p), now) && Refilled(p, NewBucket(p), now) == p.Full() >= p.window
  {
    MulMono(p.window, 1, p.burst);
    MulMono(p.requests, 0, now);
  }

  // ----- The limiter and the limiter that never prunes -----

  datatype Client = Client(bucket: Bucket, lastSeen: Time)

  datatype State = State(clients: map<Key, Client>, lastPrune: Time)

  const EMPTY := State(map[], 0)

  function Pruned(p: Params, clients: map<Key, Client>, now: Time): map<Key, Client> {
    map key | key in clients && now - clients[key].lastSeen <= p.ttl :: clients[key]
  }

  function AfterPrune(p: Params, s: State, now: Time): State {
    if now - s.lastPrune >= p.ttl then State(Pruned(p, s.clients, now), now) else s
  }

  function BucketOf(p: Params, clients: map<Key, Client>, key: Key): Bucket {
    if key in clients then clients[key].bucket else NewBucket(p)
  }

  datatype Answer<S> = Answer(state: S, ok: bool)

  function Serve(p: Params, s: State, key: Key, now: Time): Answer<State> {
    ServeAt(p, s, key, now, now)
  }

  /** A call looks its client up at the time it read on arrival, and takes its token at a second reading. */
  function ServeAt(p: Params, s: State, key: Key, now: Time, at: Time): Answer<State> {
    var after := AfterPrune(p, s, now);
    var taken := Take(p, BucketOf(p, after.clients, key), at);
    Answer(after.(clients := after.clients[key := Client(taken.bucket, now)]), taken.ok)
  }

  type Buckets = map<Key, Bucket>

  function ServeForever(p: Params, m: Buckets, key: Key, now: Time): Answer<Buckets> {
    var taken := Take(p, if key in m then m[key] else NewBucket(p), now);
    Answer(m[key := taken.bucket], taken.ok)
  }

  datatype Request = Request(key: Key, at: Time)

  /** The requests come in clock order within [from, to]. */
  ghost predicate Timed(reqs: seq<Request>, from: Time, to: Time)
    decreases |reqs|
  {
    from <= to && (reqs == [] || (from <= reqs[0].at && Timed(reqs[1..], reqs[0].at, to)))
  }

  function Answers(p: Params, s: State, reqs: seq<Request>): (answers: seq<bool>)
    ensures |answers| == |reqs|
    decreases |reqs|
  {
    if reqs == [] then [] else
    var a := Serve(p, s, reqs[0].key, reqs[0].at);
    [a.ok] + Answers(p, a.state, reqs[1..])
  }

  function After(p: Params, s: State, reqs: seq<Request>): State
    decreases |reqs|
  {
    if reqs == [] then s else After(p, Serve(p, s, reqs[0].key, reqs[0].at).state, reqs[1..])
  }

  function AnswersForever(p: Params, m: Buckets, reqs: seq<Request>): (answers: seq<bool>)
    ensures |answers| == |reqs|
    decreases |reqs|
  {
    if reqs == [] then [] else
    var a := ServeForever(p, m, reqs[0].key, reqs[0].at);
    [a.ok] + AnswersForever(p, a.state, reqs[1..])
  }

  /** Requests of one key that were let through. */
  function Admitted(reqs: seq<Request>, answers: seq<bool>, key: Key): nat
    requires |answers| == |reqs|
    decreases |reqs|
  {
    if reqs == [] then 0 else
    (if reqs[0].key == key && answers[0] then 1 else 0) + Admitted(reqs[1..], answers[1..], key)
  }

  // ----- Pruning is invisible exactly when idle buckets are full -----

  /** A bucket idle for longer than ttl has filled up. */
  predicate IdleIsFull(p: Params) {
    p.burst * p.window <= p.requests * (p.ttl + 1)
  }

  ghost predicate StateOk(p: Params, s: State, now: Time) {
    forall key :: key in s.clients ==>
      BucketOk(p, s.clients[key].bucket, now) && s.clients[key].bucket.last <= s.clients[key].lastSeen <= now
  }

  /** m is s with the pruned clients kept; those have full buckets. */
  ghost predicate Agree(p: Params, s: State, m: Buckets, now: Time) {
    && StateOk(p, s, now)
    && (forall key :: key in s.clients ==> key in m && m[key] == s.clients[key].bucket)
    && (forall key :: key in m && key !in s.clients ==> BucketOk(p, m[key], now) && Refilled(p, m[key], now) == p.Full())
  }

  lemma AgreeLater(p: Params, s: State, m: Buckets, t: Time, u: Time)
    requires p.Valid() && Agree(p, s, m, t) && t <= u
    ensures Agree(p, s, m, u)
  {
    forall key | key in m && key !in s.clients ensures Refilled(p, m[key], u) == p.Full() {
      RefillRate(p, m[key], t, u);
    }
  }

  lemma IdleBucketIsFull(p: Params, b: Bucket, lastSeen: Time, now: Time)
    requires p.Valid() && IdleIsFull(p) && BucketOk(p, b, now) && b.last <= lastSeen && now - lastSeen > p.ttl
    ensures Refilled(p, b, now) == p.Full()
  {
    MulMono(p.requests, p.ttl + 1, now - b.last);
  }

  lemma PruneKeepsAgree(p: Params, s: State, m: Buckets, now: Time)
    requires p.Valid() && IdleIsFull(p) && Agree(p, s, m, now)
    ensures Agree(p, AfterPrune(p, s, now), m, now)
  {
    var after := AfterPrune(p, s, now);
    forall key | key in m && key !in after.clients
      ensures BucketOk(p, m[key], now) && Refilled(p, m[key], now) == p.Full()
    {
      if key in s.clients {
        IdleBucketIsFull(p, m[key], s.clients[key].lastSeen, now);
      }
    }
  }

  lemma ServeAgrees(p: Params, s: State, m: Buckets, key: Key, now: Time)
    requires p.Valid() && IdleIsFull(p) && Agree(p, s, m, now)
    ensures Serve(p, s, key, now).ok == ServeForever(p, m, key, now).ok
    ensures Agree(p, Serve(p, s, key, now).state, ServeForever(p, m, key, now).state, now)
  {
    var after := AfterPrune(p, s, now);
    PruneKeepsAgree(p, s, m, now);
    NewBucketIsFull(p, now);
    var b := BucketOf(p, after.clients, key);
    assert Take(p, b, now) == Take(p, if key in m then m[key] else NewBucket(p), now);
    TakeKeepsOk(p, b, now);
  }

  lemma {:induction false} PruningIsInvisible(p: Params, s: State, m: Buckets, reqs: seq<Request>, from: Time, to: Time)
    requires p.Valid() && IdleIsFull(p) && Agree(p, s, m, from) && Timed(reqs, from, to)
    ensures Answers(p, s, reqs) == AnswersForever(p, m, reqs)
    decreases |reqs|
  {
    if reqs != [] {
      var r := reqs[0];
      AgreeLater(p, s, m, from, r.at);
      ServeAgrees(p, s, m, r.key, r.at);
      PruningIsInvisible(p, Serve(p, s, r.key, r.at).state, ServeForever(p, m, r.key, r.at).state, reqs[1..], r.at, to);
    }
  }

  // ----- The converse: otherwise some client notices -----

  function Burst(key: Key, at: Time, n: nat): seq<Request> {
    if n == 0 then [] else [Request(key, at)] + Burst(key, at, n - 1)
  }

  lemma {:induction false} BurstTimed(key: Key, at: Time, n: nat, from: Time, rest: seq<Request>, to: Time)
    requires from <= at <= to && Timed(rest, at, to)
    ensures Timed(Burst(key, at, n) + rest, from, to)
    decreases n
  {
    if n == 0 {
      assert Burst(key, at, n) + rest == rest;
      TimedEarlier(rest, from, at, to);
    } else {
      BurstTimed(key, at, n - 1, at, rest, to);
      assert (Burst(key, at, n) + rest)[1..] == Burst(key, at, n - 1) + rest;
    }
  }

  lemma TimedEarlier(reqs: seq<Request>, from: Time, later: Time, to: Time)
    requires from <= later && Timed(reqs, later, to)
    ensures Timed(reqs, from, to)
  {
  }

  lemma {:induction false} AnswersConcat(p: Params, s: State, a: seq<Request>, b: seq<Request>)
    ensures Answers(p, s, a + b) == Answers(p, s, a) + Answers(p, After(p, s, a), b)
    ensures After(p, s, a + b) == After(p, After(p, s, a), b)
    decreases |a|
  {
    if a == [] {
      assert a + b == b;
    } else {
      assert (a + b)[1..] == a[1..] + b;
      AnswersConcat(p, Serve(p, s, a[0].key, a[0].at).state, a[1..], b);
    }
  }

  function AfterForever(p: Params, m: Buckets, reqs: seq<Request>): Buckets
    decreases |reqs|
  {
    if reqs == [] then m else AfterForever(p, ServeForever(p, m, reqs[0].key, reqs[0].at).state, reqs[1..])
  }

  lemma {:induction false} AnswersForeverConcat(p: Params, m: Buckets, a: seq<Request>, b: seq<Request>)
    ensures AnswersForever(p, m, a + b) == AnswersForever(p, m, a) + AnswersForever(p, AfterForever(p, m, a), b)
    decreases |a|
  {
    if a == [] {
      assert a + b == b;
    } else {
      assert (a + b)[1..] == a[1..] + b;
      AnswersForeverConcat(p, ServeForever(p, m, a[0].key, a[0].at).state, a[1..], b);
    }
  }

  ghost predicate AllTrue(answers: seq<bool>) {
    forall i :: 0 <= i < |answers| ==> answers[i]
  }

  /** n requests at one instant all pass exactly when the bucket holds n tokens; if so they take them. */
  lemma {:induction false} BurstForever(p: Params, m: Buckets, key: Key, at: Time, n: nat)
    requires p.Valid() && key in m && BucketOk(p, m[key], at)
    ensures AllTrue(AnswersForever(p, m, Burst(key, at, n))) <==> n * p.window <= Refilled(p, m[key], at)
    ensures var after := AfterForever(p, m, Burst(key, at, n));
      && key in after && BucketOk(p, after[key], at)
      && (n * p.window <= Refilled(p, m[key], at) ==> Refilled(p, after[key], at) == Refilled(p, m[key], at) - n * p.window)
      && (n > 0 && n * p.window <= Refilled(p, m[key], at) ==> after[key].last == at)
    decreases n
  {
    RefillRate(p, m[key], at, at);
    if n > 0 {
      var reqs := Burst(key, at, n);
      var a := ServeForever(p, m, key, at);
      var room, less := Refilled(p, m[key], at), Refilled(p, a.state[key], at);
      assert reqs[1..] == Burst(key, at, n - 1);
      TakeKeepsOk(p, m[key], at);
      BurstForever(p, a.state, key, at, n - 1);
      RoomForOneMore(p.window, n, room, less);
      AllTrueCons(a.ok, AnswersForever(p, a.state, Burst(key, at, n - 1)));
    }
  }

  lemma RoomForOneMore(window: int, n: int, room: int, less: int)
    requires window > 0 && n > 0 && less == if room >= window then room - window else room
    ensures n * window <= room <==> room >= window && (n - 1) * window <= less
    ensures room >= window ==> room - n * window == less - (n - 1) * window
  {
    MulAdd(window, n - 1, 1);
    MulMono(window, 1, n);
  }

  lemma AllTrueCons(b: bool, tail: seq<bool>)
    ensures AllTrue([b] + tail) <==> b && AllTrue(tail)
  {
    assert forall i :: 0 <= i < |tail| ==> ([b] + tail)[i + 1] == tail[i];
    assert ([b] + tail)[0] == b;
  }

  lemma {:induction false} BurstPruning(p: Params, s: State, key: Key, at: Time, n: nat)
    requires p.Valid() && at - s.lastPrune < p.ttl && at >= s.lastPrune
    requires key in s.clients && BucketOk(p, s.clients[key].bucket, at)
    requires n * p.window <= Refilled(p, s.clients[key].bucket, at)
    ensures AllTrue(Answers(p, s, Burst(key, at, n)))
    decreases n
  {
    if n > 0 {
      var reqs := Burst(key, at, n);
      var a := Serve(p, s, key, at);
      MulAdd(p.window, n - 1, 1);
      MulMono(p.window, 0, n - 1);
      TakeKeepsOk(p, s.clients[key].bucket, at);
      assert reqs[1..] == Burst(key, at, n - 1);
      BurstPruning(p, a.state, key, at, n - 1);
    }
  }

  /** A fresh key at an instant when a prune is due: burst requests pass, however full the limiter is. */
  lemma FirstBurst(p: Params, s: State, key: Key, at: Time)
    requires p.Valid() && at - s.lastPrune >= p.ttl
    requires key in s.clients ==> at - s.clients[key].lastSeen > p.ttl
    ensures AllTrue(Answers(p, s, Burst(key, at, p.burst)))
    ensures Answers(p, s, Burst(key, at, p.burst)) != []
  {
    NewBucketIsFull(p, at);
    var a := Serve(p, s, key, at);
    TakeKeepsOk(p, NewBucket(p), at);
    MulAdd(p.window, p.burst - 1, 1);
    BurstPruning(p, a.state, key, at, p.burst - 1);
    assert Burst(key, at, p.burst)[1..] == Burst(key, at, p.burst - 1);
  }

  lemma {:induction false} BurstSeen(p: Params, s: State, key: Key, at: Time, n: nat)
    requires p.Valid() && s.lastPrune <= at && at - s.lastPrune < p.ttl && key in s.clients && s.clients[key].lastSeen == at
    ensures var after := After(p, s, Burst(key, at, n));
      after.lastPrune == s.lastPrune && key in after.clients && after.clients[key].lastSeen == at
    decreases n
  {
    if n > 0 {
      assert Burst(key, at, n)[1..] == Burst(key, at, n - 1);
      BurstSeen(p, Serve(p, s, key, at).state, key, at, n - 1);
    }
  }

  /** Drain a bucket, wait until it can just be pruned, and ask for burst tokens again. */
  function Probe(p: Params, key: Key): seq<Request>
    requires p.Valid()
  {
    Burst(key, p.ttl, p.burst) + Burst(key, p.ttl + p.ttl + 1, p.burst)
  }

  lemma ProbePruning(p: Params, key: Key)
    requires p.Valid()
    ensures var answers := Answers(p, EMPTY, Probe(p, key)); |answers| >= p.burst && AllTrue(answers[|answers| - p.burst..])
  {
    var t, u := p.ttl, p.ttl + p.ttl + 1;
    var first, second := Burst(key, t, p.burst), Burst(key, u, p.burst);
    AnswersConcat(p, EMPTY, first, second);
    var s1 := Serve(p, EMPTY, key, t).state;
    BurstSeen(p, s1, key, t, p.burst - 1);
    assert first[1..] == Burst(key, t, p.burst - 1);
    var s2 := After(p, EMPTY, first);
    FirstBurst(p, s2, key, u);
    BurstLength(key, u, p.burst);
    var answers := Answers(p, EMPTY, first + second);
    assert answers[|answers| - p.burst..] == Answers(p, s2, second);
  }

  lemma BurstLength(key: Key, at: Time, n: nat)
    ensures |Burst(key, at, n)| == n
  {
  }

  /** A drained bucket that has not filled up again denies a request of the next burst. */
  lemma DrainedDenies(p: Params, key: Key, t: Time, u: Time)
    requires p.Valid() && t <= u && p.requests * (u - t) < p.Full()
    ensures var answers := AnswersForever(p, map[], Burst(key, t, p.burst) + Burst(key, u, p.burst));
      |answers| >= p.burst && !AllTrue(answers[|answers| - p.burst..])
  {
    var first, second := Burst(key, t, p.burst), Burst(key, u, p.burst);
    AnswersForeverConcat(p, map[], first, second);
    NewBucketIsFull(p, t);
    SameStart(p, key, first);
    BurstForever(p, map[key := NewBucket(p)], key, t, p.burst);
    var m1 := AfterForever(p, map[], first);
    DrainedLevel(p, m1[key], t, u);
    BurstForever(p, m1, key, u, p.burst);
    BurstLength(key, u, p.burst);
    var answers := AnswersForever(p, map[], first + second);
    assert answers[|answers| - p.burst..] == AnswersForever(p, m1, second);
  }

  lemma DrainedLevel(p: Params, b: Bucket, t: Time, u: Time)
    requires p.Valid() && t <= u && BucketOk(p, b, t) && b.last == t && Refilled(p, b, t) == 0 && p.requests * (u - t) < p.Full()
    ensures BucketOk(p, b, u) && Refilled(p, b, u) < p.Full()
  {
    assert b.level + p.requests * 0 == b.level;
  }

  lemma ProbeForever(p: Params, key: Key)
    requires p.Valid() && !IdleIsFull(p)
    ensures var answers := AnswersForever(p, map[], Probe(p, key));
      |answers| >= p.burst && !AllTrue(answers[|answers| - p.burst..])
  {
    DrainedDenies(p, key, p.ttl, p.ttl + p.ttl + 1);
  }

  /** A key the limiter has not seen behaves as one with a new bucket. */
  lemma SameStart(p: Params, key: Key, reqs: seq<Request>)
    requires reqs != [] && reqs[0].key == key
    ensures AfterForever(p, map[], reqs) == AfterForever(p, map[key := NewBucket(p)], reqs)
  {
    assert ServeForever(p, map[], key, reqs[0].at).state
        == ServeForever(p, map[key := NewBucket(p)], key, reqs[0].at).state;
  }

  ghost predicate NeverNoticed(p: Params) {
    forall reqs, to :: Timed(reqs, 0, to) ==> Answers(p, EMPTY, reqs) == AnswersForever(p, map[], reqs)
  }

  /** Pruning changes no answer to any sequence of requests exactly when an idle bucket has filled up. */
  lemma PruningIsInvisibleIff(p: Params)
    requires p.Valid()
    ensures NeverNoticed(p) <==> IdleIsFull(p)
  {
    if IdleIsFull(p) {
      forall reqs, to | Timed(reqs, 0, to) ensures Answers(p, EMPTY, reqs) == AnswersForever(p, map[], reqs) {
        PruningIsInvisible(p, EMPTY, map[], reqs, 0, to);
      }
    } else {
      ProbePruning(p, "client");
      ProbeForever(p, "client");
      var t, u := p.ttl, p.ttl + p.ttl + 1;
      assert Burst("client", u, p.burst) + [] == Burst("client", u, p.burst);
      BurstTimed("client", u, p.burst, t, [], u);
      BurstTimed("client", t, p.burst, 0, Burst("client", u, p.burst), u);
      assert Timed(Probe(p, "client"), 0, u);
    }
  }

  /** Since ttl is at least two windows, a burst of up to two windows' worth of requests is safe. */
  lemma ModestBurstIsSafe(cfg: Config)
    requires ParamsOf(cfg).burst <= 2 * ParamsOf(cfg).requests
    ensures NeverNoticed(ParamsOf(cfg))
  {
    var p := ParamsOf(cfg);
    TwoWindowsFill(p.window, p.burst, p.requests, p.ttl + 1);
    PruningIsInvisibleIff(p);
  }

  lemma TwoWindowsFill(window: int, burst: int, requests: int, idle: int)
    requires window > 0 && 0 < burst <= 2 * requests && 2 * window <= idle
    ensures burst * window <= requests * idle
  {
    MulMono(window, burst, 2 * requests);
    MulMono(requests, 2 * window, idle);
    assert window * (2 * requests) == requests * (2 * window);
  }

  // ----- How much gets through -----

  /** One request at time r: what the key has taken so far and may still take fits its budget. */
  lemma BudgetStep(p: Params, b: Bucket, mine: bool, from: Time, r: Time, to: Time, rest: nat)
    requires p.Valid() && BucketOk(p, b, from) && from <= r <= to
    requires var after := if mine then Take(p, b, r).bucket else b;
      rest * p.window <= Refilled(p, after, r) + p.requests * (to - r)
    ensures ((if mine && Take(p, b, r).ok then 1 else 0) + rest) * p.window
      <= Refilled(p, b, from) + p.requests * (to - from)
  {
    var one := if mine && Take(p, b, r).ok then 1 else 0;
    RefillRate(p, b, from, r);
    TakeKeepsOk(p, b, r);
    Budget(p, one, rest, from, r, to, Refilled(p, b, from), Refilled(p, b, r));
  }

  lemma Budget(p: Params, one: int, rest: int, from: int, r: int, to: int, start: int, room: int)
    requires one == 0 || one == 1
    requires room <= start + p.requests * (r - from)
    requires rest * p.window <= room - (if one == 1 then p.window else 0) + p.requests * (to - r)
    ensures (one + rest) * p.window <= start + p.requests * (to - from)
  {
    MulAdd(p.requests, r - from, to - r);
    assert (r - from) + (to - r) == to - from;
    MulAdd(p.window, one, rest);
  }

  /** What one key can take in a stretch of time: what its bucket holds plus what flows in. */
  lemma {:induction false} AdmittedForever(p: Params, m: Buckets, reqs: seq<Request>, key: Key, from: Time, to: Time)
    requires p.Valid() && Timed(reqs, from, to)
    requires key in m && BucketOk(p, m[key], from)
    ensures Admitted(reqs, AnswersForever(p, m, reqs), key) * p.window
      <= Refilled(p, m[key], from) + p.requests * (to - from)
    decreases |reqs|
  {
    if reqs == [] {
      RefillRate(p, m[key], from, from);
      MulMono(p.requests, 0, to - from);
    } else {
      var r := reqs[0];
      TimedEnd(reqs[1..], r.at, to);
      var a := ServeForever(p, m, r.key, r.at);
      TakeKeepsOk(p, m[key], r.at);
      AdmittedForever(p, a.state, reqs[1..], key, r.at, to);
      var answers := AnswersForever(p, m, reqs);
      assert answers[1..] == AnswersForever(p, a.state, reqs[1..]);
      BudgetStep(p, m[key], r.key == key, from, r.at, to, Admitted(reqs[1..], answers[1..], key));
    }
  }

  lemma TimedEnd(reqs: seq<Request>, from: Time, to: Time)
    requires Timed(reqs, from, to)
    ensures from <= to
  {
  }

  lemma {:induction false} AgreeAfter(p: Params, s: State, m: Buckets, reqs: seq<Request>, from: Time, to: Time)
    requires p.Valid() && IdleIsFull(p) && Agree(p, s, m, from) && Timed(reqs, from, to)
    ensures Agree(p, After(p, s, reqs), AfterForever(p, m, reqs), to)
    decreases |reqs|
  {
    if reqs == [] {
      AgreeLater(p, s, m, from, to);
    } else {
      var r := reqs[0];
      AgreeLater(p, s, m, from, r.at);
      ServeAgrees(p, s, m, r.key, r.at);
      AgreeAfter(p, Serve(p, s, r.key, r.at).state, ServeForever(p, m, r.key, r.at).state, reqs[1..], r.at, to);
    }
  }

  /** After any history, in any stretch of time from..to each key is let through at most
      burst + requests * (to - from) / window times. */
  lemma AdmittedInInterval(p: Params, before: seq<Request>, during: seq<Request>, key: Key, from: Time, to: Time)
    requires p.Valid() && IdleIsFull(p) && Timed(before, 0, from) && Timed(during, from, to)
    ensures Admitted(during, Answers(p, After(p, EMPTY, before), during), key) * p.window
      <= p.burst * p.window + p.requests * (to - from)
  {
    var s, m := After(p, EMPTY, before), AfterForever(p, map[], before);
    AgreeAfter(p, EMPTY, map[], before, 0, from);
    PruningIsInvisible(p, s, m, during, from, to);
    NewBucketIsFull(p, from);
    if key in m {
      assert BucketOk(p, m[key], from);
      RefillRate(p, m[key], from, from);
      AdmittedForever(p, m, during, key, from, to);
    } else {
      UnseenKey(p, m, during, key);
      AdmittedForever(p, m[key := NewBucket(p)], during, key, from, to);
    }
  }

  lemma {:induction false} UnseenKey(p: Params, m: Buckets, reqs: seq<Request>, key: Key)
    requires key !in m
    ensures AnswersForever(p, m, reqs) == AnswersForever(p, m[key := NewBucket(p)], reqs)
    decreases |reqs|
  {
    if reqs != [] {
      var r := reqs[0];
      var a, b := ServeForever(p, m, r.key, r.at), ServeForever(p, m[key := NewBucket(p)], r.key, r.at);
      if r.key == key {
        assert a.state == b.state;
      } else {
        assert b.state == a.state[key := NewBucket(p)];
        UnseenKey(p, a.state, reqs[1..], key);
      }
    }
  }

  // ----- Retry-After -----

  /** math.Ceil(window.Seconds() / requests), at least one second. */
  function RetryAfterSeconds(requests: int, window: int): (seconds: int)
    requires requests > 0 && window > 0
    ensures seconds >= 1 && requests * (seconds * SECOND) >= window
    ensures forall fewer :: 1 <= fewer < seconds ==> requests * (fewer * SECOND) < window
  {
    var unit := requests * SECOND;
    var seconds := (window + unit - 1) / unit;
    CeilDiv(window, unit);
    assert seconds * unit == requests * (seconds * SECOND);
    assert forall fewer :: 1 <= fewer < seconds ==> requests * (fewer * SECOND) < window by {
      forall fewer | 1 <= fewer < seconds ensures requests * (fewer * SECOND) < window {
        MulMono(unit, fewer, seconds - 1);
        assert fewer * unit == requests * (fewer * SECOND);
      }
    }
    if seconds < 1 then 1 else seconds
  }

  /** The client's bucket is where it was, or the client was pruned. */
  ghost predicate Untouched(s: State, key: Key, b: Bucket) {
    key in s.clients ==> s.clients[key].bucket == b
  }

  lemma {:induction false} SilenceLeavesBucket(p: Params, s: State, key: Key, b: Bucket, others: seq<Request>)
    requires Untouched(s, key, b) && forall i :: 0 <= i < |others| ==> others[i].key != key
    ensures Untouched(After(p, s, others), key, b)
    decreases |others|
  {
    if others != [] {
      SilenceLeavesBucket(p, Serve(p, s, others[0].key, others[0].at).state, key, b, others[1..]);
    }
  }

  /** A client denied at t that stays silent for RetryAfterSeconds is let through, whatever the other
      clients do meanwhile and whatever the settings. */
  lemma DeniedThenAdmitted(p: Params, s: State, key: Key, t: Time, others: seq<Request>, u: Time)
    requires p.Valid() && StateOk(p, s, t) && !Serve(p, s, key, t).ok
    requires forall i :: 0 <= i < |others| ==> others[i].key != key
    requires u >= t + RetryAfterSeconds(p.requests, p.window) * SECOND
    ensures Serve(p, After(p, Serve(p, s, key, t).state, others), key, u).ok
  {
    NewBucketIsFull(p, t);
    NewBucketIsFull(p, u);
    var b := BucketOf(p, AfterPrune(p, s, t).clients, key);
    SilenceLeavesBucket(p, Serve(p, s, key, t).state, key, b, others);
    SilentBucketRecovers(p, b, t, u);
  }

  lemma SilentBucketRecovers(p: Params, b: Bucket, t: Time, u: Time)
    requires p.Valid() && BucketOk(p, b, t) && u >= t + RetryAfterSeconds(p.requests, p.window) * SECOND
    ensures Take(p, b, u).ok
  {
    MulMono(p.requests, RetryAfterSeconds(p.requests, p.window) * SECOND, u - b.last);
    MulMono(p.window, 1, p.burst);
  }

  /** Every history leaves a state that satisfies StateOk. */
  lemma {:induction false} HistoriesAreOk(p: Params, s: State, reqs: seq<Request>, from: Time, to: Time)
    requires p.Valid() && StateOk(p, s, from) && Timed(reqs, from, to)
    ensures StateOk(p, After(p, s, reqs), to)
    decreases |reqs|
  {
    if reqs != [] {
      var r := reqs[0];
      NewBucketIsFull(p, r.at);
      TakeKeepsOk(p, BucketOf(p, AfterPrune(p, s, r.at).clients, r.key), r.at);
      HistoriesAreOk(p, Serve(p, s, r.key, r.at).state, reqs[1..], r.at, to);
    }
  }

  // ----- The limiter object -----

  class IPRateLimiter {
    const enabled: bool
    const params: Params
    const retryAfter: int
    var clients: map<Key, Client>
    var lastPrune: Time

    constructor (cfg: Config)
      ensures enabled == cfg.enabled && params == ParamsOf(cfg) && Snapshot() == EMPTY
      ensures params.Valid() && retryAfter == RetryAfterSeconds(params.requests, params.window)
      ensures params.requests == if cfg.requests > 0 then cfg.requests else 1
      ensures params.window == if cfg.window > 0 then cfg.window else 60_000_000_000
      ensures params.burst == if cfg.burst > 0 then cfg.burst else params.requests
      ensures params.ttl == if 2 * params.window > 60_000_000_000 then 2 * params.window else 60_000_000_000
    {
      var p := ParamsOf(cfg);
      enabled, params := cfg.enabled, p;
      retryAfter := RetryAfterSeconds(p.requests, p.window);
      clients, lastPrune := map[], 0;
    }

    function Snapshot(): State
      reads this
    {
      State(clients, lastPrune)
    }

    /** Whether a request of the client may proceed; key is its normalised address, now what the clock said
        on arrival and at what it says to the token bucket. */
    method Allow(key: Key, now: Time, at: Time) returns (ok: bool)
      modifies this
      ensures !enabled ==> ok && Snapshot() == old(Snapshot())
      ensures enabled ==> Answer(Snapshot(), ok) == ServeAt(params, old(Snapshot()), key, now, at)
    {
      if !enabled {
        return true;
      }
      if now - lastPrune >= params.ttl {
        PruneLocked(now);
        lastPrune := now;
      }
      if key !in clients {
        clients := clients[key := Client(NewBucket(params), now)];
      }
      var taken := Take(params, clients[key].bucket, at);
      ghost var served := AfterPrune(params, old(Snapshot()), now).clients;
      assert clients[key := Client(taken.bucket, now)] == served[key := Client(taken.bucket, now)];
      clients := clients[key := Client(taken.bucket, now)];
      return taken.ok;
    }

    method PruneLocked(now: Time)
      modifies this`clients
      ensures clients == Pruned(params, old(clients), now)
      ensures forall key :: key in clients <==> key in old(clients) && now - old(clients)[key].lastSeen <= params.ttl
      ensures forall key :: key in clients ==> clients[key] == old(clients)[key]
    {
      var rest := clients.Keys;
      while rest != {}
        invariant rest <= old(clients).Keys
        invariant forall key :: key in clients <==>
          key in old(clients) && (key in rest || now - old(clients)[key].lastSeen <= params.ttl)
        invariant forall key :: key in clients ==> clients[key] == old(clients)[key]
        decreases rest
      {
        var key :| key in rest;
        if now - clients[key].lastSeen > params.ttl {
          clients := clients - {key};
        }
        rest := rest - {key};
      }
    }
  }
}
