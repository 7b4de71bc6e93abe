/**
 A Refresh call with nothing happening between its statements: what it returns and leaves behind, that
 it is what the interleaved protocol does when left alone, and what the retention purge can change
 about it.
 */
module AloneRefresh {
  import opened Wrappers
  import opened RefreshTokens
  import opened RotationSafety

  ghost predicate UniqueHashes(tokens: Table) {
    forall a, b :: a in tokens && b in tokens && tokens[a].hash == tokens[b].hash ==> a == b
  }

  // ----- Refresh as one step -----

  datatype Refreshed = Refreshed(tokens: Table, outcome: Outcome)

  /** Refresh, when other callers turn the table it looked the token up in into meanwhile before its
      next statement runs, and into later before the one that follows a lost race. */
  ghost function RefreshAmid(tokens: Table, meanwhile: Table, later: Table, hash: Hash, now: Time,
                             status: Id -> UserStatus, next: Id, nextHash: Hash, ttl: Time): Refreshed
  {
    match Find(tokens, hash)
    case None => Refreshed(meanwhile, NotFound)
    case Some(prior) =>
      var row := tokens[prior];
      if !row.Live() then Refreshed(Revoke(meanwhile, OfFamily(row.family), now), Reused(row.family))
      else if row.expiresAt <= now then Refreshed(meanwhile, Expired)
      else match status(row.user)
        case NoSuchUser => Refreshed(meanwhile, UserMissing)
        case DisabledUser => Refreshed(meanwhile, UserDisabled)
        case ActiveUser =>
          match Rotate(meanwhile, prior, next, Carried(row, nextHash, now, ttl), now)
          case Some(after) => Refreshed(after, Session(prior, next))
          case None => Refreshed(Revoke(later, OfFamily(row.family), now), Conflict(row.family))
  }

  /** Refresh with nothing happening between its statements. */
  ghost function RefreshAlone(tokens: Table, hash: Hash, now: Time, status: Id -> UserStatus,
                              next: Id, nextHash: Hash, ttl: Time): Refreshed
  {
    RefreshAmid(tokens, tokens, tokens, hash, now, status, next, nextHash, ttl)
  }

  /** Whatever the others did: reuse and a lost race both end the family, and a session comes back only
      if the row was still live when it was rotated. */
  lemma RefreshAmidInterference(tokens: Table, meanwhile: Table, later: Table, hash: Hash, now: Time,
                                status: Id -> UserStatus, next: Id, nextHash: Hash, ttl: Time)
    ensures var r := RefreshAmid(tokens, meanwhile, later, hash, now, status, next, nextHash, ttl);
      match r.outcome
      case Reused(f) => Dead(r.tokens, f)
      case Conflict(f) => Dead(r.tokens, f)
      case Session(prior, _) => prior in meanwhile && meanwhile[prior].Live()
      case _ => r.tokens == meanwhile
  {
  }

  /** What a presented token comes to, whatever others do after it was looked up: its row as it was read decides
      whether it is refused, and the row as it then is whether the rotation wins. A lost race revokes what is
      then live of the family, and nothing else. */
  lemma RefreshAmidOutcome(tokens: Table, meanwhile: Table, later: Table, id: Id, now: Time, status: Id -> UserStatus,
                           next: Id, nextHash: Hash, ttl: Time)
    requires UniqueHashes(tokens) && id in tokens
    ensures var row := tokens[id];
      var r := RefreshAmid(tokens, meanwhile, later, row.hash, now, status, next, nextHash, ttl);
      if row.revokedAt != None then r.outcome == Reused(row.family) && r.tokens == Revoke(meanwhile, OfFamily(row.family), now)
      else if row.expiresAt <= now then r == Refreshed(meanwhile, Expired)
      else if status(row.user) == NoSuchUser then r == Refreshed(meanwhile, UserMissing)
      else if status(row.user) == DisabledUser then r == Refreshed(meanwhile, UserDisabled)
      else if id in meanwhile && meanwhile[id].revokedAt == None then r.outcome == Session(id, next)
      else
        && r.outcome == Conflict(row.family) && r.tokens.Keys == later.Keys
        && forall other :: other in later ==>
             r.tokens[other] ==
               if later[other].family == row.family && later[other].revokedAt == None
               then later[other].(revokedAt := Some(now), updatedAt := now) else later[other]
  {
    assert Find(tokens, tokens[id].hash) == Some(id);
  }

  /** Undisturbed, a session comes back exactly for a stored, live, unexpired token of an active user. */
  lemma RefreshSucceedsIff(tokens: Table, later: Table, hash: Hash, now: Time, status: Id -> UserStatus,
                           next: Id, nextHash: Hash, ttl: Time)
    requires UniqueHashes(tokens)
    ensures RefreshAmid(tokens, tokens, later, hash, now, status, next, nextHash, ttl).outcome.Session? <==>
      exists id :: id in tokens && tokens[id].hash == hash && tokens[id].Active(now)
        && status(tokens[id].user) == ActiveUser
  {
  }

  /** On success the session goes on under a new token: same user, family, device and start, last used
      now, good for a full ttl; the presented token is revoked and no other row changes. */
  lemma RefreshContinuesSession(tokens: Table, hash: Hash, now: Time, status: Id -> UserStatus,
                                next: Id, nextHash: Hash, ttl: Time)
    requires next !in tokens && RefreshAlone(tokens, hash, now, status, next, nextHash, ttl).outcome.Session?
    ensures var r := RefreshAlone(tokens, hash, now, status, next, nextHash, ttl);
      var prior, after := r.outcome.prior, r.tokens;
      && prior in tokens && prior != next && tokens[prior].hash == hash && r.outcome.next == next
      && after.Keys == tokens.Keys + {next}
      && after[next].Session() == tokens[prior].Session() && after[next].hash == nextHash
      && after[next].Live() && after[next].lastUsedAt == Some(now) && after[next].expiresAt == now + ttl
      && !after[prior].Live() && after[prior].replacedBy == Some(next)
      && after[prior].Identity() == tokens[prior].Identity()
      && forall id :: id in tokens && id != prior ==> after[id] == tokens[id]
  {
  }

  /** Presenting a revoked token revokes its family and nothing else. */
  lemma RefreshPunishesReuse(tokens: Table, id: Id, now: Time, status: Id -> UserStatus,
                             next: Id, nextHash: Hash, ttl: Time)
    requires UniqueHashes(tokens) && id in tokens && !tokens[id].Live()
    ensures var r := RefreshAlone(tokens, tokens[id].hash, now, status, next, nextHash, ttl);
      && r.outcome == Reused(tokens[id].family) && Dead(r.tokens, tokens[id].family)
      && r.tokens.Keys == tokens.Keys
      && forall other :: other in tokens && tokens[other].family != tokens[id].family ==>
           r.tokens[other] == tokens[other]
  {
  }

  /** A freshly issued token continues its session for its lifetime, if its user is active, and leaves every
      other presented token what it was. */
  lemma IssuedTokenRefreshes(tokens: Table, id: Id, user: Id, family: Id, client: Client, hash: Hash, start: Time,
                             presented: Hash, now: Time, status: Id -> UserStatus, next: Id, nextHash: Hash, ttl: Time)
    requires UniqueHashes(tokens) && id !in tokens && forall other :: other in tokens ==> tokens[other].hash != hash
    ensures var issued := tokens[id := Mint(user, family, client, None, hash, start, ttl)];
      && UniqueHashes(issued)
      && RefreshAlone(issued, presented, now, status, next, nextHash, ttl).outcome ==
         if presented != hash then RefreshAlone(tokens, presented, now, status, next, nextHash, ttl).outcome
         else if now >= start + ttl then Expired
         else match status(user)
           case NoSuchUser => UserMissing
           case DisabledUser => UserDisabled
           case ActiveUser => Session(id, next)
  {
    var issued := tokens[id := Mint(user, family, client, None, hash, start, ttl)];
    assert issued[id].hash == hash && UniqueHashes(issued);
    if presented == hash {
      assert Find(issued, hash) == Some(id);
    } else if prior :| prior in tokens && tokens[prior].hash == presented {
      assert issued[prior] == tokens[prior];
      assert Find(issued, presented) == Some(prior) && Find(tokens, presented) == Some(prior);
    } else {
      assert Find(issued, presented) == None && Find(tokens, presented) == None;
    }
  }

  // ----- The interleaved protocol, run alone, is RefreshAlone -----

  /** The events of call k when no other call takes a step. */
  ghost function SoloRun(s: State, k: nat, hash: Hash, status: Id -> UserStatus, next: Id, nextHash: Hash): seq<Event> {
    match Find(s.tokens, hash)
    case None => [Lookup(k, hash)]
    case Some(prior) =>
      var row := s.tokens[prior];
      if !row.Live() then [Lookup(k, hash), Decide(k), RevokeFamily(k)]
      else if row.expiresAt <= s.clock then [Lookup(k, hash), Decide(k)]
      else if status(row.user) != ActiveUser then [Lookup(k, hash), Decide(k), CheckUser(k, status(row.user))]
      else [Lookup(k, hash), Decide(k), CheckUser(k, ActiveUser), TryRotate(k, next, nextHash, s.clock)]
  }

  lemma RunOne(s: State, e: Event, rest: seq<Event>)
    requires Enabled(s, e)
    ensures ValidRun(s, [e] + rest) <==> ValidRun(Apply(s, e), rest)
    ensures ValidRun(Apply(s, e), rest) ==> Exec(s, [e] + rest) == Exec(Apply(s, e), rest)
  {
    assert ([e] + rest)[1..] == rest;
  }

  /** Left to itself, a call of the interleaved protocol returns what RefreshAlone says and leaves the
      table RefreshAlone says. */
  lemma SoloRunIsRefreshAlone(s: State, k: nat, hash: Hash, status: Id -> UserStatus, next: Id, nextHash: Hash)
    requires k !in s.calls && Fresh(s, next, nextHash)
    ensures var run := SoloRun(s, k, hash, status, next, nextHash);
      var r := RefreshAlone(s.tokens, hash, s.clock, status, next, nextHash, s.ttl);
      && ValidRun(s, run) && k in Exec(s, run).calls
      && Exec(s, run).tokens == r.tokens && Exec(s, run).calls[k].phase == Returned(r.outcome)
  {
    var run := SoloRun(s, k, hash, status, next, nextHash);
    var s1 := Apply(s, Lookup(k, hash));
    RunOne(s, Lookup(k, hash), run[1..]);
    assert run == [Lookup(k, hash)] + run[1..];
    if s1.calls[k].phase.Looked? {
      SoloRest(s1, k, status, next, nextHash, run[1..]);
    }
  }

  lemma SoloRest(s: State, k: nat, status: Id -> UserStatus, next: Id, nextHash: Hash, run: seq<Event>)
    requires k in s.calls && s.calls[k].phase.Looked? && Fresh(s, next, nextHash)
    requires var Looked(prior, row) := s.calls[k].phase;
      && prior in s.tokens && s.tokens[prior] == row
      && run ==
        if !row.Live() then [Decide(k), RevokeFamily(k)]
        else if row.expiresAt <= s.clock then [Decide(k)]
        else if status(row.user) != ActiveUser then [Decide(k), CheckUser(k, status(row.user))]
        else [Decide(k), CheckUser(k, ActiveUser), TryRotate(k, next, nextHash, s.clock)]
    ensures var Looked(prior, row) := s.calls[k].phase;
      && ValidRun(s, run) && k in Exec(s, run).calls
      && var t := Exec(s, run);
      if !row.Live() then
        t.tokens == Revoke(s.tokens, OfFamily(row.family), s.clock) && t.calls[k].phase == Returned(Reused(row.family))
      else if row.expiresAt <= s.clock then
        t.tokens == s.tokens && t.calls[k].phase == Returned(Expired)
      else match status(row.user)
        case NoSuchUser => t.tokens == s.tokens && t.calls[k].phase == Returned(UserMissing)
        case DisabledUser => t.tokens == s.tokens && t.calls[k].phase == Returned(UserDisabled)
        case ActiveUser =>
          && Some(t.tokens) == Rotate(s.tokens, prior, next, Carried(row, nextHash, s.clock, s.ttl), s.clock)
          && t.calls[k].phase == Returned(Session(prior, next))
  {
    var Looked(prior, row) := s.calls[k].phase;
    var s1 := DoDecide(s, k);
    assert run == [Decide(k)] + run[1..];
    RunOne(s, Decide(k), run[1..]);
    if !row.Live() {
      RunOne(s1, RevokeFamily(k), []);
    } else if row.expiresAt > s.clock {
      var st := status(row.user);
      RunOne(s1, CheckUser(k, st), run[2..]);
      assert run[1..] == [CheckUser(k, st)] + run[2..];
      if st == ActiveUser {
        RunOne(DoCheckUser(s1, k, st), TryRotate(k, next, nextHash, s.clock), []);
      }
    }
  }

  // ----- What the purge can change about Refresh -----

  /** A caller can tell a session and a disabled user apart from everything else, which is one error. */
  ghost predicate LooksTheSame(a: Outcome, b: Outcome) {
    && (a.Session? || b.Session? ==> a == b)
    && (a == UserDisabled <==> b == UserDisabled)
  }

  function Unexpired(tokens: Table, now: Time): Table {
    map id | id in tokens && tokens[id].expiresAt > now :: tokens[id]
  }

  /** The purged row was a revoked one whose family still has a live, unexpired row. */
  ghost predicate ReuseWentUnseen(tokens: Table, dbNow: Time, hash: Hash, now: Time) {
    exists id, live ::
      && id in tokens && tokens[id].hash == hash && tokens[id].expiresAt < dbNow && !tokens[id].Live()
      && live in tokens && tokens[live].family == tokens[id].family && tokens[live].Active(now)
  }

  /** After a purge a caller presenting any token sees the same answer. The effect on unexpired rows is
      also the same, except exactly when the purge removed a revoked row that would have betrayed its
      still-live family. */
  lemma PurgeEffectOnRefresh(tokens: Table, dbNow: Time, hash: Hash, now: Time, status: Id -> UserStatus,
                             next: Id, nextHash: Hash, ttl: Time)
    requires UniqueHashes(tokens) && next !in tokens && dbNow <= now
    ensures var before := RefreshAlone(tokens, hash, now, status, next, nextHash, ttl);
      var after := RefreshAlone(Purge(tokens, dbNow), hash, now, status, next, nextHash, ttl);
      && LooksTheSame(before.outcome, after.outcome)
      && (Unexpired(before.tokens, now) == Unexpired(after.tokens, now) <==>
          !ReuseWentUnseen(tokens, dbNow, hash, now))
  {
    if id :| id in tokens && tokens[id].hash == hash {
      if tokens[id].expiresAt < dbNow {
        PurgedToken(tokens, dbNow, id, now, status, next, nextHash, ttl);
      } else {
        KeptToken(tokens, dbNow, id, now, status, next, nextHash, ttl);
        assert !ReuseWentUnseen(tokens, dbNow, hash, now);
      }
    } else {
      assert Unexpired(tokens, now) == Unexpired(Purge(tokens, dbNow), now);
    }
  }

  lemma KeptToken(tokens: Table, dbNow: Time, id: Id, now: Time, status: Id -> UserStatus,
                  next: Id, nextHash: Hash, ttl: Time)
    requires UniqueHashes(tokens) && next !in tokens && dbNow <= now && id in tokens && tokens[id].expiresAt >= dbNow
    ensures var before := RefreshAlone(tokens, tokens[id].hash, now, status, next, nextHash, ttl);
      var after := RefreshAlone(Purge(tokens, dbNow), tokens[id].hash, now, status, next, nextHash, ttl);
      before.outcome == after.outcome && Unexpired(before.tokens, now) == Unexpired(after.tokens, now)
  {
    var kept := Purge(tokens, dbNow);
    assert id in kept && Find(tokens, tokens[id].hash) == Some(id) && Find(kept, tokens[id].hash) == Some(id);
    if tokens[id].Live() {
      RotateCommutes(tokens, dbNow, id, next, Carried(tokens[id], nextHash, now, ttl), now);
      assert Unexpired(tokens, now) == Unexpired(kept, now);
    } else {
      PurgeCommutes(tokens, dbNow, OfFamily(tokens[id].family), now);
    }
  }

  lemma RotateCommutes(tokens: Table, dbNow: Time, id: Id, next: Id, input: Token, now: Time)
    requires dbNow <= now && next !in tokens && id in tokens && tokens[id].Live() && tokens[id].expiresAt >= dbNow
    ensures var before, after := Rotate(tokens, id, next, input, now), Rotate(Purge(tokens, dbNow), id, next, input, now);
      before.Some? && after.Some? && Unexpired(before.value, now) == Unexpired(after.value, now)
  {
  }

  lemma PurgeCommutes(tokens: Table, dbNow: Time, scope: Scope, now: Time)
    requires dbNow <= now
    ensures var kept := Purge(tokens, dbNow);
      && Unexpired(tokens, now) == Unexpired(kept, now)
      && Unexpired(Revoke(tokens, scope, now), now) == Unexpired(Revoke(kept, scope, now), now)
  {
  }

  lemma PurgedToken(tokens: Table, dbNow: Time, id: Id, now: Time, status: Id -> UserStatus,
                    next: Id, nextHash: Hash, ttl: Time)
    requires UniqueHashes(tokens) && next !in tokens && dbNow <= now && id in tokens && tokens[id].expiresAt < dbNow
    ensures var hash := tokens[id].hash;
      var before := RefreshAlone(tokens, hash, now, status, next, nextHash, ttl);
      var after := RefreshAlone(Purge(tokens, dbNow), hash, now, status, next, nextHash, ttl);
      && LooksTheSame(before.outcome, after.outcome)
      && (Unexpired(before.tokens, now) == Unexpired(after.tokens, now) <==>
          !ReuseWentUnseen(tokens, dbNow, hash, now))
  {
    var kept := Purge(tokens, dbNow);
    assert Find(tokens, tokens[id].hash) == Some(id) && Find(kept, tokens[id].hash) == None;
    assert Unexpired(tokens, now) == Unexpired(kept, now);
    if tokens[id].Live() {
      assert !ReuseWentUnseen(tokens, dbNow, tokens[id].hash, now);
    } else {
      RevokingChangesIff(tokens, tokens[id].family, now);
      assert ReuseWentUnseen(tokens, dbNow, tokens[id].hash, now) <==> HasActive(tokens, tokens[id].family, now);
    }
  }

  ghost predicate HasActive(tokens: Table, family: Id, now: Time) {
    exists live :: live in tokens && tokens[live].family == family && tokens[live].Active(now)
  }

  /** Revoking a family changes an unexpired row exactly when the family has an active one. */
  lemma RevokingChangesIff(tokens: Table, family: Id, now: Time)
    ensures Unexpired(Revoke(tokens, OfFamily(family), now), now) == Unexpired(tokens, now) <==> !HasActive(tokens, family, now)
  {
    var revoked := Revoke(tokens, OfFamily(family), now);
    if live :| live in tokens && tokens[live].family == family && tokens[live].Active(now) {
      assert Unexpired(revoked, now)[live] != Unexpired(tokens, now)[live];
    } else {
      assert Unexpired(revoked, now) == Unexpired(tokens, now);
    }
  }

  /** A session refreshed once at t, and left until u, when only its first token has expired. */
  function RefreshedOnce(user: Id, client: Client, start: Time, t: Time, u: Time): seq<Event> {
    [SignIn(1, user, 1, client, 1, start), Tick(t)]
      + ([Lookup(0, 1), Decide(0), CheckUser(0, ActiveUser), TryRotate(0, 2, 2, t)] + [Tick(u)])
  }

  lemma {:induction false} RunSplits(s: State, run: seq<Event>, rest: seq<Event>)
    requires ValidRun(s, run) && ValidRun(Exec(s, run), rest)
    ensures ValidRun(s, run + rest) && Exec(s, run + rest) == Exec(Exec(s, run), rest)
    decreases |run|
  {
    if run == [] {
      assert run + rest == rest;
    } else {
      RunSplits(Apply(s, run[0]), run[1..], rest);
      assert (run + rest)[0] == run[0] && (run + rest)[1..] == run[1..] + rest;
    }
  }

  /** A call can meet the condition: whenever a session is refreshed and its first token then expires
      before its second one. */
  lemma ReuseCanGoUnseen(s: State, user: Id, client: Client, t: Time, u: Time)
    requires Init(s) && s.clock < t < s.clock + s.ttl < u < t + s.ttl
    ensures var run := RefreshedOnce(user, client, s.clock, t, u);
      ValidRun(s, run) && Exec(s, run).clock == u && ReuseWentUnseen(Exec(s, run).tokens, u, 1, u)
  {
    var signIn := SignIn(1, user, 1, client, 1, s.clock);
    var s2 := SignedInThen(s, user, client, t);
    var solo, s3 := RefreshedThen(s2, user, client, s.clock, t, u);
    RunSplits(s, [signIn, Tick(t)], solo + [Tick(u)]);
  }

  /** Signed in, and then some time later. */
  lemma SignedInThen(s: State, user: Id, client: Client, t: Time) returns (s2: State)
    requires Init(s) && s.clock < t
    ensures ValidRun(s, [SignIn(1, user, 1, client, 1, s.clock), Tick(t)])
    ensures s2 == Exec(s, [SignIn(1, user, 1, client, 1, s.clock), Tick(t)])
    ensures s2.tokens == map[1 := Mint(user, 1, client, None, 1, s.clock, s.ttl)] && s2.log == s2.tokens
    ensures s2.clock == t && s2.ttl == s.ttl && s2.calls == map[]
  {
    var signIn := SignIn(1, user, 1, client, 1, s.clock);
    var s1 := Apply(s, signIn);
    s2 := Apply(s1, Tick(t));
    RunOne(s1, Tick(t), []);
    RunOne(s, signIn, [Tick(t)]);
  }

  /** The session is refreshed, and then left until only its first token has expired. */
  lemma RefreshedThen(s2: State, user: Id, client: Client, start: Time, t: Time, u: Time) returns (solo: seq<Event>, s3: State)
    requires s2.tokens == map[1 := Mint(user, 1, client, None, 1, start, s2.ttl)] && s2.log == s2.tokens
    requires s2.clock == t && s2.calls == map[] && start < t < start + s2.ttl < u < t + s2.ttl
    ensures solo == [Lookup(0, 1), Decide(0), CheckUser(0, ActiveUser), TryRotate(0, 2, 2, t)]
    ensures ValidRun(s2, solo + [Tick(u)]) && s3 == Exec(s2, solo + [Tick(u)])
    ensures s3.clock == u && ReuseWentUnseen(s3.tokens, u, 1, u)
  {
    var status: Id -> UserStatus := _ => ActiveUser;
    assert 1 in s2.tokens && s2.tokens[1].hash == 1;
    assert Find(s2.tokens, 1) == Some(1);
    SoloRunIsRefreshAlone(s2, 0, 1, status, 2, 2);
    solo := SoloRun(s2, 0, 1, status, 2, 2);
    RefreshContinuesSession(s2.tokens, 1, t, status, 2, 2, s2.ttl);
    var mid := Exec(s2, solo);
    ClockStays(s2, solo);
    RunOne(mid, Tick(u), []);
    RunSplits(s2, solo, [Tick(u)]);
    s3 := Apply(mid, Tick(u));
    assert s3.tokens[1].hash == 1 && s3.tokens[2].Active(u);
  }

  lemma {:induction false} ClockStays(s: State, run: seq<Event>)
    requires ValidRun(s, run) && forall e :: e in run ==> !e.Tick?
    ensures Exec(s, run).clock == s.clock
    decreases |run|
  {
    if run != [] {
      assert run[0] in run;
      ClockStays(Apply(s, run[0]), run[1..]);
    }
  }
}
