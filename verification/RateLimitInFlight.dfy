/**
 The in-memory limiter when calls overlap: a call reads the clock on arrival, looks its client up when it
 gets the mutex, and takes its token after releasing it, at the time it then is.
 */
module RateLimitInFlight {
  import opened Arithmetic
  import opened RateLimit

  /** A call waits at most lock for the mutex, and takes its token at most take after it had it. */
  datatype Delays = Delays(lock: nat, take: nat) {
    function Total(): nat {
      lock + take
    }
  }

  /** Where a call stands; while it is Holding a limiter, found is when it looked it up. */
  datatype Phase = Arrived(key: Key, now: Time) | Holding(key: Key, id: nat, found: Time)

  datatype Entry = Entry(id: nat, lastSeen: Time)

  /** The token buckets, the client table that refers to them, and the calls in flight. A call may still
      hold a bucket that the table has dropped. */
  datatype World = World(
    limiters: map<nat, Bucket>, clients: map<Key, Entry>, lastPrune: Time, clock: Time, calls: map<nat, Phase>)

  const NOBODY := World(map[], map[], 0, 0, map[])

  /** id is the bucket a call allocates if it finds none. */
  datatype Event =
    | Tick(to: Time)
    | Arrive(call: nat, key: Key)
    | LookUp(call: nat, id: nat)
    | TakeToken(call: nat)

  predicate Enabled(w: World, e: Event, d: Delays) {
    match e
    case Tick(to) => w.clock <= to
    case Arrive(call, _) => call !in w.calls
    case LookUp(call, id) =>
      && call in w.calls && w.calls[call].Arrived? && id !in w.limiters
      && w.clock <= w.calls[call].now + d.lock
    case TakeToken(call) =>
      && call in w.calls && w.calls[call].Holding? && w.calls[call].id in w.limiters
      && w.clock <= w.calls[call].found + d.take
  }

  function PrunedTable(p: Params, clients: map<Key, Entry>, now: Time): map<Key, Entry> {
    map key | key in clients && now - clients[key].lastSeen <= p.ttl :: clients[key]
  }

  function AfterPruning(p: Params, w: World, now: Time): World {
    if now - w.lastPrune >= p.ttl then w.(clients := PrunedTable(p, w.clients, now), lastPrune := now) else w
  }

  /** The critical section. */
  function DoLookUp(p: Params, w: World, call: nat, id: nat): World
    requires call in w.calls && w.calls[call].Arrived?
  {
    var Arrived(key, now) := w.calls[call];
    var v := AfterPruning(p, w, now);
    var bucket := if key in v.clients then v.clients[key].id else id;
    v.(limiters := if key in v.clients then v.limiters else v.limiters[id := NewBucket(p)],
       clients := v.clients[key := Entry(bucket, now)],
       calls := v.calls[call := Holding(key, bucket, w.clock)])
  }

  function DoTake(p: Params, w: World, call: nat): World
    requires call in w.calls && w.calls[call].Holding? && w.calls[call].id in w.limiters
  {
    var id := w.calls[call].id;
    w.(limiters := w.limiters[id := Take(p, w.limiters[id], w.clock).bucket], calls := w.calls - {call})
  }

  function Apply(p: Params, w: World, e: Event, d: Delays): World
    requires Enabled(w, e, d)
  {
    match e
    case Tick(to) => w.(clock := to)
    case Arrive(call, key) => w.(calls := w.calls[call := Arrived(key, w.clock)])
    case LookUp(call, id) => DoLookUp(p, w, call, id)
    case TakeToken(call) => DoTake(p, w, call)
  }

  ghost predicate ValidRun(p: Params, w: World, run: seq<Event>, d: Delays)
    decreases |run|
  {
    run == [] || (Enabled(w, run[0], d) && ValidRun(p, Apply(p, w, run[0], d), run[1..], d))
  }

  ghost function Exec(p: Params, w: World, run: seq<Event>, d: Delays): World
    requires ValidRun(p, w, run, d)
    decreases |run|
  {
    if run == [] then w else Exec(p, Apply(p, w, run[0], d), run[1..], d)
  }

  /** What one step answers, and the request for a token it makes. */
  function AnswerOf(p: Params, w: World, e: Event, d: Delays): seq<bool>
    requires Enabled(w, e, d)
  {
    if e.TakeToken? then [Take(p, w.limiters[w.calls[e.call].id], w.clock).ok] else []
  }

  function RequestOf(w: World, e: Event, d: Delays): seq<Request>
    requires Enabled(w, e, d)
  {
    if e.TakeToken? then [Request(w.calls[e.call].key, w.clock)] else []
  }

  /** The calls' answers, and their requests in the order in which tokens were taken. */
  ghost function AnswersOf(p: Params, w: World, run: seq<Event>, d: Delays): seq<bool>
    requires ValidRun(p, w, run, d)
    decreases |run|
  {
    if run == [] then [] else AnswerOf(p, w, run[0], d) + AnswersOf(p, Apply(p, w, run[0], d), run[1..], d)
  }

  ghost function RequestsOf(p: Params, w: World, run: seq<Event>, d: Delays): seq<Request>
    requires ValidRun(p, w, run, d)
    decreases |run|
  {
    if run == [] then [] else RequestOf(w, run[0], d) + RequestsOf(p, Apply(p, w, run[0], d), run[1..], d)
  }

  // ----- When pruning goes unnoticed -----

  /** A bucket last used as late as the delays allow has filled up when its client is pruned. */
  predicate FillsUp(p: Params, d: Delays) {
    d.Total() <= p.ttl && p.Full() <= p.requests * (p.ttl + 1 - d.Total())
  }

  function Kept(p: Params, m: Buckets, key: Key): Bucket {
    if key in m then m[key] else NewBucket(p)
  }

  ghost predicate IsFull(p: Params, b: Bucket, now: Time) {
    Refilled(p, b, now) == p.Full()
  }

  /** The client's bucket is the one the limiter that never prunes has kept, or both are full; a client that
      is not in the table has a full one there. */
  ghost predicate Tracks(p: Params, d: Delays, w: World, m: Buckets, key: Key) {
    var kept := Kept(p, m, key);
    && BucketOk(p, kept, w.clock)
    && if key !in w.clients then IsFull(p, kept, w.clock)
       else
         var e := w.clients[key];
         && e.id in w.limiters && e.lastSeen <= w.clock
         && var b := w.limiters[e.id];
            && BucketOk(p, b, w.clock) && b.last <= e.lastSeen + d.Total() && kept.last <= e.lastSeen + d.Total()
            && (b == kept || (IsFull(p, b, w.clock) && IsFull(p, kept, w.clock)))
  }

  /** A call that can still take its token holds its client's own bucket. */
  ghost predicate CallOk(w: World, d: Delays, call: nat) {
    call in w.calls ==>
      match w.calls[call]
      case Arrived(_, now) => now <= w.clock
      case Holding(key, id, found) =>
        && found <= w.clock
        && (w.clock <= found + d.take ==>
             key in w.clients && w.clients[key].id == id && found <= w.clients[key].lastSeen + d.lock)
  }

  ghost predicate Distinct(w: World) {
    forall a, b :: a in w.clients && b in w.clients && w.clients[a].id == w.clients[b].id ==> a == b
  }

  ghost predicate Agree(p: Params, d: Delays, w: World, m: Buckets) {
    Distinct(w) && (forall key :: Tracks(p, d, w, m, key)) && forall call :: CallOk(w, d, call)
  }

  lemma TickKeepsAgree(p: Params, d: Delays, w: World, m: Buckets, to: Time)
    requires p.Valid() && Agree(p, d, w, m) && w.clock <= to
    ensures Agree(p, d, w.(clock := to), m)
  {
    var v := w.(clock := to);
    forall key ensures Tracks(p, d, v, m, key) {
      assert Tracks(p, d, w, m, key);
      RefillRate(p, Kept(p, m, key), w.clock, to);
      if key in w.clients {
        RefillRate(p, w.limiters[w.clients[key].id], w.clock, to);
      }
    }
    forall call ensures CallOk(v, d, call) {
      assert CallOk(w, d, call);
    }
  }

  lemma ArriveKeepsAgree(p: Params, d: Delays, w: World, m: Buckets, call: nat, key: Key)
    requires Agree(p, d, w, m)
    ensures Agree(p, d, w.(calls := w.calls[call := Arrived(key, w.clock)]), m)
  {
    var v := w.(calls := w.calls[call := Arrived(key, w.clock)]);
    forall other ensures Tracks(p, d, v, m, other) {
      assert Tracks(p, d, w, m, other);
    }
    forall other ensures CallOk(v, d, other) {
      assert CallOk(w, d, other);
    }
  }

  /** A bucket that is pruned, or that would be by a call that read the clock at now, is full. */
  lemma StaleIsFull(p: Params, d: Delays, b: Bucket, lastSeen: Time, now: Time, clock: Time)
    requires p.Valid() && FillsUp(p, d) && BucketOk(p, b, clock) && now <= clock
    requires b.last <= lastSeen + d.Total() && now - lastSeen > p.ttl
    ensures IsFull(p, b, clock)
  {
    MulMono(p.requests, p.ttl + 1 - d.Total(), clock - b.last);
  }

  lemma PruneKeepsAgree(p: Params, d: Delays, w: World, m: Buckets, now: Time)
    requires p.Valid() && FillsUp(p, d) && Agree(p, d, w, m) && now <= w.clock
    ensures Agree(p, d, AfterPruning(p, w, now), m)
  {
    var v := AfterPruning(p, w, now);
    forall key ensures Tracks(p, d, v, m, key) {
      assert Tracks(p, d, w, m, key);
      if key in w.clients && key !in v.clients {
        StaleIsFull(p, d, Kept(p, m, key), w.clients[key].lastSeen, now, w.clock);
      }
    }
    forall call ensures CallOk(v, d, call) {
      assert CallOk(w, d, call);
    }
  }

  lemma LookUpKeepsAgree(p: Params, d: Delays, w: World, m: Buckets, call: nat, id: nat)
    requires p.Valid() && FillsUp(p, d) && Agree(p, d, w, m) && Enabled(w, LookUp(call, id), d)
    ensures Agree(p, d, DoLookUp(p, w, call, id), m)
  {
    var Arrived(key, now) := w.calls[call];
    assert CallOk(w, d, call);
    var v, t := AfterPruning(p, w, now), DoLookUp(p, w, call, id);
    PruneKeepsAgree(p, d, w, m, now);
    NewBucketIsFull(p, w.clock);
    forall other ensures Tracks(p, d, t, m, other) {
      assert Tracks(p, d, v, m, other);
    }
    forall other ensures CallOk(t, d, other) {
      assert CallOk(v, d, other);
    }
    NewIdIsDistinct(p, d, v, m, key, id, now);
  }

  lemma NewIdIsDistinct(p: Params, d: Delays, v: World, m: Buckets, key: Key, id: nat, now: Time)
    requires Agree(p, d, v, m) && id !in v.limiters
    ensures var bucket := if key in v.clients then v.clients[key].id else id;
      Distinct(v.(clients := v.clients[key := Entry(bucket, now)]))
  {
    assert forall a :: a in v.clients ==> Tracks(p, d, v, m, a);
  }

  /** Two buckets that are the same or both full answer alike, and are the same afterwards if they gave a
      token. */
  lemma TakeAlike(p: Params, a: Bucket, b: Bucket, now: Time)
    requires p.Valid() && (a == b || (IsFull(p, a, now) && IsFull(p, b, now)))
    ensures Take(p, a, now).ok == Take(p, b, now).ok
    ensures Take(p, a, now).bucket == Take(p, b, now).bucket
  {
    MulMono(p.window, 1, p.burst);
  }

  lemma TakeKeepsAgree(p: Params, d: Delays, w: World, m: Buckets, call: nat)
    requires p.Valid() && Agree(p, d, w, m) && Enabled(w, TakeToken(call), d)
    ensures var key := w.calls[call].key;
      && Take(p, w.limiters[w.calls[call].id], w.clock).ok == ServeForever(p, m, key, w.clock).ok
      && Agree(p, d, DoTake(p, w, call), ServeForever(p, m, key, w.clock).state)
  {
    var Holding(key, id, found) := w.calls[call];
    assert CallOk(w, d, call) && Tracks(p, d, w, m, key);
    var t, kept := DoTake(p, w, call), ServeForever(p, m, key, w.clock).state;
    TakeAlike(p, w.limiters[id], Kept(p, m, key), w.clock);
    TakeKeepsOk(p, w.limiters[id], w.clock);
    forall other ensures Tracks(p, d, t, kept, other) {
      assert Tracks(p, d, w, m, other);
      assert other != key && other in w.clients ==> w.clients[other].id != id;
    }
    forall other ensures CallOk(t, d, other) {
      assert CallOk(w, d, other);
    }
  }

  /** One step answers, if it does, like the limiter that never prunes, and keeps the agreement. */
  lemma StepAgrees(p: Params, d: Delays, w: World, m: Buckets, e: Event)
    requires p.Valid() && FillsUp(p, d) && Agree(p, d, w, m) && Enabled(w, e, d)
    ensures AnswerOf(p, w, e, d) == AnswersForever(p, m, RequestOf(w, e, d))
    ensures Agree(p, d, Apply(p, w, e, d), AfterForever(p, m, RequestOf(w, e, d)))
  {
    match e
    case Tick(to) => TickKeepsAgree(p, d, w, m, to);
    case Arrive(call, key) => ArriveKeepsAgree(p, d, w, m, call, key);
    case LookUp(call, id) => LookUpKeepsAgree(p, d, w, m, call, id);
    case TakeToken(call) =>
      TakeKeepsAgree(p, d, w, m, call);
      OneRequest(p, m, Request(w.calls[call].key, w.clock));
  }

  lemma OneRequest(p: Params, m: Buckets, r: Request)
    ensures AnswersForever(p, m, [r]) == [ServeForever(p, m, r.key, r.at).ok]
    ensures AfterForever(p, m, [r]) == ServeForever(p, m, r.key, r.at).state
  {
    assert [r][1..] == [];
  }

  lemma {:induction false} AfterForeverConcat(p: Params, m: Buckets, a: seq<Request>, b: seq<Request>)
    ensures AfterForever(p, m, a + b) == AfterForever(p, AfterForever(p, m, a), b)
    decreases |a|
  {
    if a == [] {
      assert a + b == b;
    } else {
      assert (a + b)[1..] == a[1..] + b;
      AfterForeverConcat(p, ServeForever(p, m, a[0].key, a[0].at).state, a[1..], b);
    }
  }

  /** Whatever calls overlap, every answer is that of the limiter that never prunes. */
  lemma {:induction false} PruningIsInvisible(p: Params, d: Delays, w: World, m: Buckets, run: seq<Event>)
    requires p.Valid() && FillsUp(p, d) && Agree(p, d, w, m) && ValidRun(p, w, run, d)
    ensures AnswersOf(p, w, run, d) == AnswersForever(p, m, RequestsOf(p, w, run, d))
    ensures Agree(p, d, Exec(p, w, run, d), AfterForever(p, m, RequestsOf(p, w, run, d)))
    decreases |run|
  {
    if run != [] {
      var e := run[0];
      var t, first := Apply(p, w, e, d), RequestOf(w, e, d);
      StepAgrees(p, d, w, m, e);
      PruningIsInvisible(p, d, t, AfterForever(p, m, first), run[1..]);
      AnswersForeverConcat(p, m, first, RequestsOf(p, t, run[1..], d));
      AfterForeverConcat(p, m, first, RequestsOf(p, t, run[1..], d));
    }
  }

  lemma NobodyAgrees(p: Params, d: Delays)
    requires p.Valid()
    ensures Agree(p, d, NOBODY, map[])
  {
    NewBucketIsFull(p, 0);
  }

  // ----- Otherwise some client notices -----

  /** The run leads from w to v with those answers and requests. */
  ghost predicate Leads(p: Params, d: Delays, w: World, run: seq<Event>, v: World, answers: seq<bool>, requests: seq<Request>) {
    && ValidRun(p, w, run, d) && Exec(p, w, run, d) == v
    && AnswersOf(p, w, run, d) == answers && RequestsOf(p, w, run, d) == requests
  }

  lemma Tail(run: seq<Event>, rest: seq<Event>)
    requires run != []
    ensures (run + rest)[0] == run[0] && (run + rest)[1..] == run[1..] + rest
  {
  }

  lemma Assoc<T>(a: seq<T>, b: seq<T>, c: seq<T>)
    ensures a + (b + c) == a + b + c
  {
  }

  lemma {:induction false} LeadsOn(p: Params, d: Delays, w: World, run: seq<Event>, v: World, answers: seq<bool>,
                                   requests: seq<Request>, rest: seq<Event>, u: World, more: seq<bool>, further: seq<Request>)
    requires Leads(p, d, w, run, v, answers, requests) && Leads(p, d, v, rest, u, more, further)
    ensures Leads(p, d, w, run + rest, u, answers + more, requests + further)
    decreases |run|
  {
    if run == [] {
      assert run + rest == rest && answers + more == more && requests + further == further;
    } else {
      var t := Apply(p, w, run[0], d);
      var answers', requests' := AnswersOf(p, t, run[1..], d), RequestsOf(p, t, run[1..], d);
      Tail(run, rest);
      LeadsOn(p, d, t, run[1..], v, answers', requests', rest, u, more, further);
      Assoc(AnswerOf(p, w, run[0], d), answers', more);
      Assoc(RequestOf(w, run[0], d), requests', further);
    }
  }

  lemma OneEvent(p: Params, d: Delays, w: World, e: Event)
    requires Enabled(w, e, d)
    ensures Leads(p, d, w, [e], Apply(p, w, e, d), AnswerOf(p, w, e, d), RequestOf(w, e, d))
  {
    var t := Apply(p, w, e, d);
    assert [e][1..] == [];
    assert AnswersOf(p, t, [], d) == [] && RequestsOf(p, t, [], d) == [];
    assert AnswerOf(p, w, e, d) + [] == AnswerOf(p, w, e, d) && RequestOf(w, e, d) + [] == RequestOf(w, e, d);
  }

  lemma NoEvents(p: Params, d: Delays, w: World)
    ensures Leads(p, d, w, [], w, [], [])
  {
  }

  /** One quiet event and then a run. */
  lemma ThenRun(p: Params, d: Delays, w: World, e: Event, rest: seq<Event>, v: World, answers: seq<bool>, requests: seq<Request>)
    requires Enabled(w, e, d) && !e.TakeToken? && Leads(p, d, Apply(p, w, e, d), rest, v, answers, requests)
    ensures Leads(p, d, w, [e] + rest, v, answers, requests)
  {
    OneEvent(p, d, w, e);
    LeadsOn(p, d, w, [e], Apply(p, w, e, d), [], [], rest, v, answers, requests);
    assert [] + answers == answers && [] + requests == requests;
  }

  /** Calls i to n - 1 of the client have arrived at that time. */
  function Waiting(key: Key, now: Time, i: nat, n: nat): (c: map<nat, Phase>)
    requires i <= n
    ensures forall call :: (call in c <==> i <= call < n) && (call in c ==> c[call] == Arrived(key, now))
    decreases n - i
  {
    if i == n then map[] else Waiting(key, now, i + 1, n)[i := Arrived(key, now)]
  }

  function Served(key: Key, id: nat, found: Time, i: nat, n: nat): (c: map<nat, Phase>)
    requires i <= n
    ensures forall call :: (call in c <==> i <= call < n) && (call in c ==> c[call] == Holding(key, id, found))
    decreases n - i
  {
    if i == n then map[] else Served(key, id, found, i + 1, n)[i := Holding(key, id, found)]
  }

  lemma {:induction false} AllArrive(p: Params, d: Delays, w: World, key: Key, i: nat, n: nat) returns (run: seq<Event>)
    requires i <= n && w.calls == Waiting(key, w.clock, 0, i)
    ensures Leads(p, d, w, run, w.(calls := Waiting(key, w.clock, 0, n)), [], [])
    decreases n - i
  {
    if i == n {
      run := [];
      NoEvents(p, d, w);
    } else {
      var t := w.(calls := w.calls[i := Arrived(key, w.clock)]);
      assert t.calls == Waiting(key, w.clock, 0, i + 1);
      var rest := AllArrive(p, d, t, key, i + 1, n);
      run := [Arrive(i, key)] + rest;
      ThenRun(p, d, w, Arrive(i, key), rest, w.(calls := Waiting(key, w.clock, 0, n)), [], []);
    }
  }

  /** The client is in the table, seen at now, and no prune is due. */
  ghost predicate Seen(p: Params, w: World, key: Key, id: nat, now: Time) {
    key in w.clients && w.clients[key] == Entry(id, now) && w.lastPrune == now
  }

  lemma OneMoreServed(key: Key, id: nat, found: Time, now: Time, i: nat, n: nat)
    requires i < n
    ensures var calls := Served(key, id, found, 0, i) + Waiting(key, now, i, n);
      && i in calls && calls[i] == Arrived(key, now)
      && calls[i := Holding(key, id, found)] == Served(key, id, found, 0, i + 1) + Waiting(key, now, i + 1, n)
  {
  }

  lemma LookUpAgain(p: Params, d: Delays, w: World, key: Key, id: nat, spare: nat, now: Time, i: nat, n: nat)
    requires p.Valid() && i < n && now <= w.clock <= now + d.lock && spare !in w.limiters && Seen(p, w, key, id, now)
    requires w.calls == Served(key, id, w.clock, 0, i) + Waiting(key, now, i, n)
    ensures Enabled(w, LookUp(i, spare), d)
    ensures DoLookUp(p, w, i, spare) == w.(calls := Served(key, id, w.clock, 0, i + 1) + Waiting(key, now, i + 1, n))
  {
    OneMoreServed(key, id, w.clock, now, i, n);
    assert w.clients[key := Entry(id, now)] == w.clients;
  }

  /** The calls from i on look their client up. */
  lemma {:induction false} AllLookUp(p: Params, d: Delays, w: World, key: Key, id: nat, spare: nat, now: Time, i: nat, n: nat)
    returns (run: seq<Event>)
    requires p.Valid() && i <= n && now <= w.clock <= now + d.lock && spare !in w.limiters && Seen(p, w, key, id, now)
    requires w.calls == Served(key, id, w.clock, 0, i) + Waiting(key, now, i, n)
    ensures Leads(p, d, w, run, w.(calls := Served(key, id, w.clock, 0, n)), [], [])
    decreases n - i
  {
    if i == n {
      run := [];
      assert w.calls == Served(key, id, w.clock, 0, n);
      NoEvents(p, d, w);
    } else {
      LookUpAgain(p, d, w, key, id, spare, now, i, n);
      var t := w.(calls := Served(key, id, w.clock, 0, i + 1) + Waiting(key, now, i + 1, n));
      var rest := AllLookUp(p, d, t, key, id, spare, now, i + 1, n);
      run := [LookUp(i, spare)] + rest;
      ThenRun(p, d, w, LookUp(i, spare), rest, w.(calls := Served(key, id, w.clock, 0, n)), [], []);
    }
  }

  /** The calls from i on take a token each. */
  lemma {:induction false} AllTake(p: Params, d: Delays, w: World, key: Key, id: nat, found: Time, i: nat, n: nat)
    returns (run: seq<Event>, v: World, answers: seq<bool>)
    requires p.Valid() && i <= n && w.calls == Served(key, id, found, i, n) && w.clock <= found + d.take
    requires id in w.limiters && BucketOk(p, w.limiters[id], w.clock) && (n - i) * p.window <= Refilled(p, w.limiters[id], w.clock)
    ensures Leads(p, d, w, run, v, answers, Burst(key, w.clock, n - i)) && AllTrue(answers) && |answers| == n - i
    ensures v == w.(limiters := v.limiters, calls := map[]) && v.limiters.Keys == w.limiters.Keys
    decreases n - i
  {
    if i == n {
      run, v, answers := [], w, [];
      NoEvents(p, d, w);
    } else {
      var e := TakeToken(i);
      var t := DoTake(p, w, i);
      OneMore(p.window, n - i);
      TakeKeepsOk(p, w.limiters[id], w.clock);
      assert t.calls == Served(key, id, found, i + 1, n);
      assert Take(p, w.limiters[id], w.clock).ok;
      OneEvent(p, d, w, e);
      var rest, v', more := AllTake(p, d, t, key, id, found, i + 1, n);
      LeadsOn(p, d, w, [e], t, [true], [Request(key, w.clock)], rest, v', more, Burst(key, w.clock, n - i - 1));
      run, v, answers := [e] + rest, v', [true] + more;
    }
  }

  lemma OneMore(window: int, n: int)
    requires n >= 1 && window >= 0
    ensures n * window == window + (n - 1) * window && (n - 1) * window >= 0
  {
  }

  /** A prune is due, and the client is not in the table or is pruned. */
  ghost predicate Due(p: Params, w: World, key: Key) {
    w.clock - w.lastPrune >= p.ttl && (key in w.clients ==> w.clock - w.clients[key].lastSeen > p.ttl)
  }

  /** The first call prunes and allocates a bucket. */
  lemma FirstLookUp(p: Params, d: Delays, w: World, key: Key, now: Time, id: nat, n: nat)
    requires p.Valid() && n > 0 && now <= w.clock <= now + d.lock && id !in w.limiters
    requires now - w.lastPrune >= p.ttl && (key in w.clients ==> now - w.clients[key].lastSeen > p.ttl)
    requires w.calls == Waiting(key, now, 0, n)
    ensures Enabled(w, LookUp(0, id), d)
    ensures var t := DoLookUp(p, w, 0, id);
      && Seen(p, t, key, id, now) && t.limiters == w.limiters[id := NewBucket(p)] && t.clock == w.clock
      && t.calls == Served(key, id, w.clock, 0, 1) + Waiting(key, now, 1, n)
  {
    var t := DoLookUp(p, w, 0, id);
    assert t.calls == Served(key, id, w.clock, 0, 1) + Waiting(key, now, 1, n);
  }

  /** Calls that arrived together look the client up together. */
  lemma WaveLooksUp(p: Params, d: Delays, w: World, key: Key, lock: nat, id: nat, spare: nat)
    returns (run: seq<Event>, v: World)
    requires p.Valid() && lock <= d.lock && Due(p, w, key) && w.calls == map[]
    requires id !in w.limiters && spare !in w.limiters && id != spare
    ensures Leads(p, d, w, run, v, [], []) && v.clock == w.clock + lock && Seen(p, v, key, id, w.clock)
    ensures v.calls == Served(key, id, v.clock, 0, p.burst) && v.limiters == w.limiters[id := NewBucket(p)]
  {
    var n, now := p.burst, w.clock;
    var arrivals := AllArrive(p, d, w, key, 0, n);
    var w1 := w.(calls := Waiting(key, now, 0, n));
    var w2 := w1.(clock := now + lock);
    FirstLookUp(p, d, w2, key, now, id, n);
    var w3 := DoLookUp(p, w2, 0, id);
    var lookups := AllLookUp(p, d, w3, key, id, spare, now, 1, n);
    v := w3.(calls := Served(key, id, w2.clock, 0, n));
    ThenRun(p, d, w2, LookUp(0, id), lookups, v, [], []);
    ThenRun(p, d, w1, Tick(w2.clock), [LookUp(0, id)] + lookups, v, [], []);
    run := arrivals + ([Tick(w2.clock)] + ([LookUp(0, id)] + lookups));
    Quiet(p, d, w, arrivals, w1, [Tick(w2.clock)] + ([LookUp(0, id)] + lookups), v, [], []);
  }

  /** As many calls as the bucket holds tokens arrive at once, look the client up later and take later still:
      all are let through, with a fresh bucket. */
  lemma Wave(p: Params, d: Delays, w: World, key: Key, lock: nat, take: nat, id: nat, spare: nat)
    returns (run: seq<Event>, v: World, answers: seq<bool>)
    requires p.Valid() && lock <= d.lock && take <= d.take && Due(p, w, key) && w.calls == map[]
    requires id !in w.limiters && spare !in w.limiters && id != spare
    ensures Leads(p, d, w, run, v, answers, Burst(key, w.clock + lock + take, p.burst))
    ensures AllTrue(answers) && |answers| == p.burst
    ensures v.calls == map[] && v.clock == w.clock + lock + take && Seen(p, v, key, id, w.clock)
    ensures v.limiters.Keys == w.limiters.Keys + {id}
  {
    var lookups, w4 := WaveLooksUp(p, d, w, key, lock, id, spare);
    var w5 := w4.(clock := w4.clock + take);
    NewBucketIsFull(p, w5.clock);
    var takes, w6, a := AllTake(p, d, w5, key, id, w4.clock, 0, p.burst);
    var requests := Burst(key, w5.clock, p.burst);
    ThenRun(p, d, w4, Tick(w5.clock), takes, w6, a, requests);
    run, v, answers := lookups + ([Tick(w5.clock)] + takes), w6, a;
    Quiet(p, d, w, lookups, w4, [Tick(w5.clock)] + takes, v, answers, requests);
  }

  lemma Quiet(p: Params, d: Delays, w: World, run: seq<Event>, v: World, rest: seq<Event>, u: World, answers: seq<bool>,
              requests: seq<Request>)
    requires Leads(p, d, w, run, v, [], []) && Leads(p, d, v, rest, u, answers, requests)
    ensures Leads(p, d, w, run + rest, u, answers, requests)
  {
    LeadsOn(p, d, w, run, v, [], [], rest, u, answers, requests);
    assert [] + answers == answers && [] + requests == requests;
  }

  /** A wave with nothing in between, at a later time. */
  lemma LaterWave(p: Params, d: Delays, w: World, key: Key, u: Time, id: nat, spare: nat)
    returns (run: seq<Event>, v: World, answers: seq<bool>)
    requires p.Valid() && w.clock <= u && Due(p, w.(clock := u), key) && w.calls == map[]
    requires id !in w.limiters && spare !in w.limiters && id != spare
    ensures Leads(p, d, w, run, v, answers, Burst(key, u, p.burst)) && AllTrue(answers) && |answers| == p.burst
  {
    var wave;
    wave, v, answers := Wave(p, d, w.(clock := u), key, 0, 0, id, spare);
    ThenRun(p, d, w, Tick(u), wave, v, answers, Burst(key, u, p.burst));
    run := [Tick(u)] + wave;
  }

  /** The first wave of all. */
  lemma FirstWave(p: Params, d: Delays, key: Key, lock: nat, take: nat)
    returns (run: seq<Event>, v: World, answers: seq<bool>)
    requires p.Valid() && lock <= d.lock && take <= d.take
    ensures Leads(p, d, NOBODY, run, v, answers, Burst(key, p.ttl + lock + take, p.burst))
    ensures AllTrue(answers) && |answers| == p.burst
    ensures v.calls == map[] && v.clock == p.ttl + lock + take && Seen(p, v, key, 0, p.ttl) && v.limiters.Keys == {0}
  {
    var wave;
    wave, v, answers := Wave(p, d, NOBODY.(clock := p.ttl), key, lock, take, 0, 1);
    ThenRun(p, d, NOBODY, Tick(p.ttl), wave, v, answers, Burst(key, p.ttl + lock + take, p.burst));
    run := [Tick(p.ttl)] + wave;
  }

  /** Two waves, the second as soon as the first one's client can be pruned. */
  lemma TwoWaves(p: Params, d: Delays, key: Key, lock: nat, take: nat)
    returns (run: seq<Event>, v: World, answers: seq<bool>)
    requires p.Valid() && lock <= d.lock && take <= d.take && lock + take <= p.ttl + 1
    ensures Leads(p, d, NOBODY, run, v, answers,
      Burst(key, p.ttl + lock + take, p.burst) + Burst(key, p.ttl + p.ttl + 1, p.burst))
    ensures |answers| == 2 * p.burst && AllTrue(answers)
  {
    var first, w, a := FirstWave(p, d, key, lock, take);
    var second, u, b := LaterWave(p, d, w, key, p.ttl + p.ttl + 1, 1, 2);
    LeadsOn(p, d, NOBODY, first, w, a, Burst(key, p.ttl + lock + take, p.burst),
            second, u, b, Burst(key, p.ttl + p.ttl + 1, p.burst));
    run, v, answers := first + second, u, a + b;
  }

  ghost predicate NeverNoticed(p: Params, d: Delays) {
    forall run :: ValidRun(p, NOBODY, run, d) ==>
      AnswersOf(p, NOBODY, run, d) == AnswersForever(p, map[], RequestsOf(p, NOBODY, run, d))
  }

  lemma WavesAreNoticed(p: Params, d: Delays, lock: nat, take: nat)
    requires p.Valid() && lock <= d.lock && take <= d.take && lock + take <= p.ttl + 1
    requires p.requests * (p.ttl + 1 - (lock + take)) < p.Full()
    ensures !NeverNoticed(p, d)
  {
    var run, v, answers := TwoWaves(p, d, "client", lock, take);
    var t, u := p.ttl + lock + take, p.ttl + p.ttl + 1;
    assert u - t == p.ttl + 1 - (lock + take);
    DrainedDenies(p, "client", t, u);
    assert AnswersOf(p, NOBODY, run, d) != AnswersForever(p, map[], RequestsOf(p, NOBODY, run, d));
  }

  /** Delays for the first wave: all there can be, but no more than until its client can be pruned. */
  lemma SomebodyNotices(p: Params, d: Delays)
    requires p.Valid() && !FillsUp(p, d)
    ensures !NeverNoticed(p, d)
  {
    MulMono(p.window, 1, p.burst);
    if d.Total() <= p.ttl {
      WavesAreNoticed(p, d, d.lock, d.take);
    } else {
      var lock := if d.lock <= p.ttl + 1 then d.lock else p.ttl + 1;
      assert p.requests * 0 == 0;
      WavesAreNoticed(p, d, lock, p.ttl + 1 - lock);
    }
  }

  /** However calls overlap, pruning changes no answer exactly when a bucket fills up in what the delays
      leave of the time after which its client can be pruned. */
  lemma PruningIsInvisibleIff(p: Params, d: Delays)
    requires p.Valid()
    ensures NeverNoticed(p, d) <==> FillsUp(p, d)
  {
    if FillsUp(p, d) {
      NobodyAgrees(p, d);
      forall run | ValidRun(p, NOBODY, run, d)
        ensures AnswersOf(p, NOBODY, run, d) == AnswersForever(p, map[], RequestsOf(p, NOBODY, run, d))
      {
        PruningIsInvisible(p, d, NOBODY, map[], run);
      }
    } else {
      SomebodyNotices(p, d);
    }
  }

  /** A burst of no more than the requests of a window is safe with delays of up to a window in all. */
  lemma ModestBurstIsSafe(cfg: Config, d: Delays)
    requires ParamsOf(cfg).burst <= ParamsOf(cfg).requests && d.Total() <= ParamsOf(cfg).window
    ensures NeverNoticed(ParamsOf(cfg), d)
  {
    var p := ParamsOf(cfg);
    MulMono(p.window, p.burst, p.requests);
    MulMono(p.requests, p.window, p.ttl + 1 - d.Total());
    PruningIsInvisibleIff(p, d);
  }

  // ----- How much gets through -----

  lemma {:induction false} RequestsInOrder(p: Params, d: Delays, w: World, run: seq<Event>)
    requires ValidRun(p, w, run, d)
    ensures Timed(RequestsOf(p, w, run, d), w.clock, Exec(p, w, run, d).clock)
    decreases |run|
  {
    if run != [] {
      var t, end := Apply(p, w, run[0], d), Exec(p, w, run, d).clock;
      var rest := RequestsOf(p, t, run[1..], d);
      RequestsInOrder(p, d, t, run[1..]);
      TimedEnd(rest, t.clock, end);
      if run[0].TakeToken? {
        assert ([Request(w.calls[run[0].call].key, w.clock)] + rest)[1..] == rest;
      } else {
        assert [] + rest == rest;
        TimedEarlier(rest, w.clock, t.clock, end);
      }
    }
  }

  /** After any history, in any stretch of a run each key is let through at most
      burst + requests * length / window times. */
  lemma AdmittedInInterval(p: Params, d: Delays, before: seq<Event>, during: seq<Event>, key: Key)
    requires p.Valid() && FillsUp(p, d) && ValidRun(p, NOBODY, before, d)
    requires ValidRun(p, Exec(p, NOBODY, before, d), during, d)
    ensures var w := Exec(p, NOBODY, before, d);
      var requests, answers := RequestsOf(p, w, during, d), AnswersOf(p, w, during, d);
      && |answers| == |requests|
      && Admitted(requests, answers, key) * p.window
           <= p.burst * p.window + p.requests * (Exec(p, w, during, d).clock - w.clock)
  {
    NobodyAgrees(p, d);
    PruningIsInvisible(p, d, NOBODY, map[], before);
    AdmittedFrom(p, d, Exec(p, NOBODY, before, d), AfterForever(p, map[], RequestsOf(p, NOBODY, before, d)), during, key);
  }

  lemma AdmittedFrom(p: Params, d: Delays, w: World, m: Buckets, run: seq<Event>, key: Key)
    requires p.Valid() && FillsUp(p, d) && Agree(p, d, w, m) && ValidRun(p, w, run, d)
    ensures var requests, answers := RequestsOf(p, w, run, d), AnswersOf(p, w, run, d);
      && |answers| == |requests|
      && Admitted(requests, answers, key) * p.window <= p.burst * p.window + p.requests * (Exec(p, w, run, d).clock - w.clock)
  {
    PruningIsInvisible(p, d, w, m, run);
    RequestsInOrder(p, d, w, run);
    assert Tracks(p, d, w, m, key);
    KeptAdmits(p, m, RequestsOf(p, w, run, d), key, w.clock, Exec(p, w, run, d).clock);
  }

  lemma KeptAdmits(p: Params, m: Buckets, requests: seq<Request>, key: Key, from: Time, to: Time)
    requires p.Valid() && Timed(requests, from, to) && BucketOk(p, Kept(p, m, key), from)
    ensures Admitted(requests, AnswersForever(p, m, requests), key) * p.window <= p.burst * p.window + p.requests * (to - from)
  {
    RefillRate(p, Kept(p, m, key), from, from);
    if key in m {
      AdmittedForever(p, m, requests, key, from, to);
    } else {
      UnseenKey(p, m, requests, key);
      AdmittedForever(p, m[key := NewBucket(p)], requests, key, from, to);
    }
  }

  // ----- A call alone -----

  /** Each client with its bucket. */
  function View(w: World): State {
    State(map key | key in w.clients && w.clients[key].id in w.limiters ::
            Client(w.limiters[w.clients[key].id], w.clients[key].lastSeen),
          w.lastPrune)
  }

  ghost predicate WellFormed(w: World) {
    Distinct(w) && forall key :: key in w.clients ==> w.clients[key].id in w.limiters
  }

  lemma PruneInView(p: Params, w: World, now: Time)
    requires WellFormed(w)
    ensures WellFormed(AfterPruning(p, w, now)) && View(AfterPruning(p, w, now)) == AfterPrune(p, View(w), now)
  {
    assert View(AfterPruning(p, w, now)).clients == AfterPrune(p, View(w), now).clients;
  }

  /** The critical section, once the table is pruned. */
  lemma EntryInView(p: Params, v: World, key: Key, now: Time, id: nat)
    requires WellFormed(v) && id !in v.limiters
    ensures var bucket := if key in v.clients then v.clients[key].id else id;
      var t := v.(limiters := if key in v.clients then v.limiters else v.limiters[id := NewBucket(p)],
                  clients := v.clients[key := Entry(bucket, now)]);
      && WellFormed(t) && t.limiters[bucket] == BucketOf(p, View(v).clients, key)
      && View(t).clients == View(v).clients[key := Client(BucketOf(p, View(v).clients, key), now)]
  {
  }

  lemma LookUpInView(p: Params, w: World, call: nat, id: nat)
    requires WellFormed(w) && id !in w.limiters && call in w.calls && w.calls[call].Arrived?
    ensures var Arrived(key, now) := w.calls[call];
      var t, after := DoLookUp(p, w, call, id), AfterPrune(p, View(w), now);
      && WellFormed(t) && t.clock == w.clock && key in t.clients && t.clients[key].lastSeen == now
      && t.calls[call] == Holding(key, t.clients[key].id, w.clock)
      && t.limiters[t.clients[key].id] == BucketOf(p, after.clients, key)
      && View(t) == after.(clients := after.clients[key := Client(BucketOf(p, after.clients, key), now)])
  {
    var Arrived(key, now) := w.calls[call];
    PruneInView(p, w, now);
    EntryInView(p, AfterPruning(p, w, now), key, now, id);
  }

  lemma TakeInView(p: Params, w: World, call: nat)
    requires WellFormed(w) && call in w.calls && w.calls[call].Holding?
    requires var Holding(key, id, _) := w.calls[call]; key in w.clients && w.clients[key].id == id
    ensures var Holding(key, id, _) := w.calls[call];
      View(DoTake(p, w, call)) ==
        View(w).(clients := View(w).clients[key :=
          Client(Take(p, w.limiters[id], w.clock).bucket, w.clients[key].lastSeen)])
  {
  }

  /** The world when a call that arrived in w gets the lock. */
  function AtLock(w: World, call: nat, key: Key, lock: nat): World {
    w.(calls := w.calls[call := Arrived(key, w.clock)], clock := w.clock + lock)
  }

  lemma AtLockInView(w: World, call: nat, key: Key, lock: nat)
    requires WellFormed(w) && call !in w.calls
    ensures WellFormed(AtLock(w, call, key, lock)) && View(AtLock(w, call, key, lock)) == View(w)
  {
  }

  /** A call that arrives and is alone until it has looked its bucket up. */
  lemma AloneLooksUp(p: Params, d: Delays, w: World, call: nat, key: Key, lock: nat, id: nat) returns (run: seq<Event>)
    requires WellFormed(w) && call !in w.calls && id !in w.limiters && lock <= d.lock
    ensures Leads(p, d, w, run, DoLookUp(p, AtLock(w, call, key, lock), call, id), [], [])
  {
    var w1, w2 := w.(calls := w.calls[call := Arrived(key, w.clock)]), AtLock(w, call, key, lock);
    var v := DoLookUp(p, w2, call, id);
    OneEvent(p, d, w2, LookUp(call, id));
    ThenRun(p, d, w1, Tick(w2.clock), [LookUp(call, id)], v, [], []);
    run := [Arrive(call, key)] + ([Tick(w2.clock)] + [LookUp(call, id)]);
    ThenRun(p, d, w, Arrive(call, key), [Tick(w2.clock)] + [LookUp(call, id)], v, [], []);
  }

  lemma OverwriteEntry<K, V>(m: map<K, V>, key: K, a: V, b: V)
    ensures m[key := a][key := b] == m[key := b]
  {
  }

  /** The call holds the bucket it found and may take its token. */
  ghost predicate MayTake(v: World, call: nat) {
    call in v.calls && v.calls[call].Holding? && v.calls[call].id in v.limiters && v.calls[call].found == v.clock
  }

  lemma FoundIsServed(p: Params, w: World, call: nat, key: Key, lock: nat, id: nat, at: Time)
    requires WellFormed(w) && call !in w.calls && id !in w.limiters
    ensures var v := DoLookUp(p, AtLock(w, call, key, lock), call, id);
      && MayTake(v, call) && v.clock == w.clock + lock
      && Answer(View(DoTake(p, v.(clock := at), call)), Take(p, v.limiters[v.calls[call].id], at).ok)
           == ServeAt(p, View(w), key, w.clock, at)
  {
    AtLockInView(w, call, key, lock);
    LookUpInView(p, AtLock(w, call, key, lock), call, id);
    var v := DoLookUp(p, AtLock(w, call, key, lock), call, id);
    var after := AfterPrune(p, View(w), w.clock);
    var bucket := BucketOf(p, after.clients, key);
    TakeInView(p, v.(clock := at), call);
    assert View(v.(clock := at)) == View(v);
    OverwriteEntry(after.clients, key, Client(bucket, w.clock), Client(Take(p, bucket, at).bucket, w.clock));
  }

  lemma AloneTakes(p: Params, d: Delays, v: World, call: nat, take: nat)
    returns (run: seq<Event>, requests: seq<Request>)
    requires MayTake(v, call) && take <= d.take
    ensures Leads(p, d, v, run, DoTake(p, v.(clock := v.clock + take), call),
                  [Take(p, v.limiters[v.calls[call].id], v.clock + take).ok], requests)
  {
    var u := v.(clock := v.clock + take);
    requests := RequestOf(u, TakeToken(call), d);
    OneEvent(p, d, u, TakeToken(call));
    ThenRun(p, d, v, Tick(u.clock), [TakeToken(call)], DoTake(p, u, call), AnswerOf(p, u, TakeToken(call), d), requests);
    run := [Tick(u.clock)] + [TakeToken(call)];
  }

  lemma AloneServed(p: Params, d: Delays, w: World, first: seq<Event>, v: World, call: nat, at: Time, served: Answer<State>)
    returns (run: seq<Event>, u: World, requests: seq<Request>)
    requires Leads(p, d, w, first, v, [], []) && MayTake(v, call) && v.clock <= at <= v.clock + d.take
    requires Answer(View(DoTake(p, v.(clock := at), call)), Take(p, v.limiters[v.calls[call].id], at).ok) == served
    ensures Leads(p, d, w, run, u, [served.ok], requests) && View(u) == served.state
  {
    var second, rs := AloneTakes(p, d, v, call, at - v.clock);
    run, u, requests := first + second, DoTake(p, v.(clock := at), call), rs;
    Quiet(p, d, w, first, v, second, u, [served.ok], rs);
  }

  lemma AloneRuns(p: Params, d: Delays, w: World, call: nat, key: Key, lock: nat, at: Time, id: nat, served: Answer<State>)
    returns (run: seq<Event>, u: World, requests: seq<Request>)
    requires WellFormed(w) && call !in w.calls && id !in w.limiters && lock <= d.lock
    requires w.clock + lock <= at <= w.clock + lock + d.take && served == ServeAt(p, View(w), key, w.clock, at)
    ensures Leads(p, d, w, run, u, [served.ok], requests) && View(u) == served.state
  {
    var first := AloneLooksUp(p, d, w, call, key, lock, id);
    FoundIsServed(p, w, call, key, lock, id, at);
    run, u, requests := AloneServed(p, d, w, first, DoLookUp(p, AtLock(w, call, key, lock), call, id), call, at, served);
  }

  /** A call with nothing else between its steps is served as one step with its two clock readings. */
  lemma AloneIsServeAt(p: Params, d: Delays, w: World, call: nat, key: Key, lock: nat, at: Time, id: nat)
    requires WellFormed(w) && call !in w.calls && id !in w.limiters && lock <= d.lock
    requires w.clock + lock <= at <= w.clock + lock + d.take
    ensures var served := ServeAt(p, View(w), key, w.clock, at);
      exists run :: ValidRun(p, w, run, d) && AnswersOf(p, w, run, d) == [served.ok] && View(Exec(p, w, run, d)) == served.state
  {
    var served := ServeAt(p, View(w), key, w.clock, at);
    var run, u, requests := AloneRuns(p, d, w, call, key, lock, at, id, served);
    assert ValidRun(p, w, run, d) && View(Exec(p, w, run, d)) == served.state;
  }
}
