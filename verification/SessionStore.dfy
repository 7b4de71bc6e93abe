/** The refresh-token store and the session calls of the auth service, in the form the service has
    them: a table updated in place and methods that return early. */
module SessionStore {
  import opened Wrappers
  import opened Text
  import opened RefreshTokens
  import opened RotationSafety
  import opened AloneRefresh

  class RefreshTokenStore {
    var tokens: Table

    constructor ()
      ensures tokens == map[]
    {
      tokens := map[];
    }

    method CreateRefreshToken(id: Id, row: Token)
      modifies this
      ensures tokens == old(tokens)[id := row]
    {
      tokens := tokens[id := row];
    }

    method GetRefreshTokenByHash(hash: Hash) returns (found: Option<Id>)
      requires UniqueHashes(tokens)
      ensures found == Find(tokens, hash)
    {
      if id :| id in tokens && tokens[id].hash == hash {
        return Some(id);
      }
      return None;
    }

    method RotateRefreshToken(prior: Id, next: Id, input: Token, at: Time) returns (rotated: bool)
      modifies this
      ensures rotated <==> prior in old(tokens) && old(tokens)[prior].Live()
      ensures rotated ==> Some(tokens) == Rotate(old(tokens), prior, next, input, at)
      ensures !rotated ==> tokens == old(tokens)
    {
      match Rotate(tokens, prior, next, input, at)
      case None =>
        rotated := false;
      case Some(after) =>
        tokens := after;
        rotated := true;
    }

    /** Any of the revoking statements; the result is the number of rows it affected. */
    method RevokeTokens(scope: Scope, at: Time) returns (rows: nat)
      modifies this
      ensures tokens == Revoke(old(tokens), scope, at)
      ensures tokens.Keys == old(tokens).Keys && forall id :: id in tokens ==>
        && !(tokens[id].Live() && InScope(scope, tokens[id]))
        && tokens[id].Identity() == old(tokens)[id].Identity() && tokens[id].replacedBy == old(tokens)[id].replacedBy
        && (tokens[id] != old(tokens)[id] ==>
             old(tokens)[id].Live() && tokens[id] == old(tokens)[id].(revokedAt := Some(at), updatedAt := at))
      ensures rows == |set id | id in old(tokens) && old(tokens)[id].Live() && InScope(scope, old(tokens)[id])|
    {
      rows := |set id | id in tokens && tokens[id].Live() && InScope(scope, tokens[id])|;
      tokens := Revoke(tokens, scope, at);
    }

    method PurgeExpired(dbNow: Time) returns (rows: nat)
      modifies this
      ensures tokens == Purge(old(tokens), dbNow)
      ensures forall id :: id in tokens <==> id in old(tokens) && old(tokens)[id].expiresAt >= dbNow
      ensures forall id :: id in tokens ==> tokens[id] == old(tokens)[id]
      ensures rows == |old(tokens)| - |tokens|
    {
      var kept := Purge(tokens, dbNow);
      assert kept.Keys <= tokens.Keys;
      CardinalityOfSubset(kept.Keys, tokens.Keys);
      rows := |tokens| - |kept|;
      tokens := kept;
    }

    /** The rows the query returns, in one of the orders its ORDER BY allows. */
    method ListActiveSessions(user: Id, now: Time) returns (list: seq<Id>)
      ensures IsActiveList(tokens, user, now, list)
    {
      var rest := set id | id in tokens && tokens[id].user == user && tokens[id].Active(now);
      ghost var all := rest;
      list := [];
      while rest != {}
        invariant rest <= all && (forall id :: id in list <==> id in all && id !in rest)
        invariant forall i :: 0 <= i < |list| ==> list[i] in all
        invariant forall i, id :: 0 <= i < |list| && id in rest ==> ListedBefore(tokens[list[i]], tokens[id])
        invariant forall i, j :: 0 <= i < j < |list| ==>
          list[i] != list[j] && ListedBefore(tokens[list[i]], tokens[list[j]])
        decreases rest
      {
        FirstListed(tokens, rest);
        var id :| id in rest && forall other :: other in rest ==> ListedBefore(tokens[id], tokens[other]);
        list := list + [id];
        rest := rest - {id};
      }
    }
  }

  lemma CardinalityOfSubset(a: set<Id>, b: set<Id>)
    requires a <= b
    ensures |a| <= |b|
  {
    if a != {} {
      var x :| x in a;
      CardinalityOfSubset(a - {x}, b - {x});
    }
  }

  lemma {:induction false} FirstListed(tokens: Table, ids: set<Id>)
    requires ids != {} && forall id :: id in ids ==> id in tokens
    ensures exists id :: id in ids && forall other :: other in ids ==> ListedBefore(tokens[id], tokens[other])
    decreases ids
  {
    var x :| x in ids;
    var rest := ids - {x};
    if rest == {} {
      assert ids == {x};
    } else {
      FirstListed(tokens, rest);
      var y :| y in rest && forall other :: other in rest ==> ListedBefore(tokens[y], tokens[other]);
      if ListedBefore(tokens[x], tokens[y]) {
        assert forall other :: other in ids ==> ListedBefore(tokens[x], tokens[other]);
      } else {
        assert forall other :: other in ids ==> ListedBefore(tokens[y], tokens[other]);
      }
    }
  }

  /** One entry of the active-sessions list. */
  datatype SessionInfo = SessionInfo(id: Id, client: Client, lastUsedAt: Option<Time>, createdAt: Time, current: bool)

  datatype SessionError = BadToken | SessionNotFound

  /** raw names row id, and that row may still act for its session. */
  ghost predicate Presents(tokens: Table, raw: string, hashOf: string -> Hash, id: Id, now: Time) {
    TrimSpace(raw) != "" && id in tokens && tokens[id].hash == hashOf(TrimSpace(raw)) && tokens[id].Active(now)
  }

  /** raw is the token of that row, which is a live one of the user. */
  ghost predicate Names(tokens: Table, raw: string, hashOf: string -> Hash, id: Id, user: Id) {
    && TrimSpace(raw) != "" && id in tokens && tokens[id].hash == hashOf(TrimSpace(raw))
    && tokens[id].user == user && tokens[id].revokedAt == None
  }

  /** The entry describes the session of the row. */
  ghost predicate Shows(info: SessionInfo, row: Token) {
    info.id == row.family && info.client == row.client && info.lastUsedAt == row.lastUsedAt && info.createdAt == row.createdAt
  }

  lemma CurrentIffNamed(tokens: Table, user: Id, raw: string, hashOf: string -> Hash)
    requires UniqueHashes(tokens)
    ensures forall family :: CurrentFamilyOf(tokens, user, raw, hashOf) == Some(family) <==>
      exists id :: Names(tokens, raw, hashOf, id, user) && tokens[id].family == family
  {
    if id: Id :| Names(tokens, raw, hashOf, id, user) {
      assert Find(tokens, hashOf(TrimSpace(raw))) == Some(id);
    }
    if CurrentFamilyOf(tokens, user, raw, hashOf).Some? {
      var id := Find(tokens, hashOf(TrimSpace(raw))).value;
      assert Names(tokens, raw, hashOf, id, user);
    }
  }

  /** Each entry describes the session of some row, and is marked exactly when raw is a live token of the
      user in that session's family. */
  ghost predicate ShownTruly(tokens: Table, user: Id, raw: string, hashOf: string -> Hash, sessions: seq<SessionInfo>) {
    forall i :: 0 <= i < |sessions| ==>
      && (sessions[i].current <==> exists id :: Names(tokens, raw, hashOf, id, user) && tokens[id].family == sessions[i].id)
      && exists id :: id in tokens && Shows(sessions[i], tokens[id])
  }

  lemma ListedSessionsShow(tokens: Table, user: Id, raw: string, hashOf: string -> Hash, list: seq<Id>, sessions: seq<SessionInfo>)
    requires UniqueHashes(tokens) && |sessions| == |list|
    requires forall i :: 0 <= i < |list| ==>
      list[i] in tokens && sessions[i] == InfoOf(tokens[list[i]], CurrentFamilyOf(tokens, user, raw, hashOf))
    ensures ShownTruly(tokens, user, raw, hashOf, sessions)
  {
    CurrentIffNamed(tokens, user, raw, hashOf);
    forall i | 0 <= i < |sessions| ensures exists id :: id in tokens && Shows(sessions[i], tokens[id]) {
      assert Shows(sessions[i], tokens[list[i]]);
    }
  }

  predicate IsSession(tokens: Table, id: Id, user: Id, family: Id) {
    id in tokens && tokens[id].user == user && tokens[id].family == family
  }

  /** The user's only live rows are those of one family; that family and other users are untouched. */
  ghost predicate OnlyFamilyLeft(before: Table, after: Table, mine: Token) {
    && after.Keys == before.Keys
    && (forall id :: id in after && after[id].user == mine.user && after[id].Live() ==> after[id].family == mine.family)
    && (forall id :: id in before && (before[id].user != mine.user || before[id].family == mine.family) ==>
         after[id] == before[id])
  }

  class SessionService {
    const store: RefreshTokenStore
    const ttl: Time
    /** SHA-256 of the raw token. */
    const hashOf: string -> Hash
    /** The status GetUserByID reports. */
    const statusOf: Id -> UserStatus

    constructor (store: RefreshTokenStore, ttl: Time, hashOf: string -> Hash, statusOf: Id -> UserStatus)
      ensures this.store == store && this.ttl == ttl && this.hashOf == hashOf && this.statusOf == statusOf
    {
      this.store, this.ttl, this.hashOf, this.statusOf := store, ttl, hashOf, statusOf;
    }

    /** issueSession for a fresh session: id, family and token hash are freshly generated. */
    method IssueSession(user: Id, client: Client, now: Time, id: Id, family: Id, hash: Hash)
      requires id !in store.tokens
      modifies store
      ensures store.tokens.Keys == old(store.tokens).Keys + {id} && store.tokens[id].Live()
      ensures var row := store.tokens[id];
        && row.Session() == (user, family, now, client) && row.hash == hash
        && row.lastUsedAt == Some(now) && row.expiresAt == now + ttl
      ensures forall other :: other in old(store.tokens) ==> store.tokens[other] == old(store.tokens)[other]
      ensures store.tokens == old(store.tokens)[id := Mint(user, family, client, None, hash, now, ttl)]
    {
      store.CreateRefreshToken(id, Mint(user, family, client, None, hash, now, ttl));
    }

    /** meanwhile is the table as other callers have left it once the token has been looked up, and later
        as they have left it after a lost race; when neither differs from the table itself, nothing happens
        in between and the result is RefreshAlone. */
    method Refresh(raw: string, now: Time, next: Id, nextHash: Hash, meanwhile: Table, later: Table)
      returns (outcome: Outcome)
      requires UniqueHashes(store.tokens)
      modifies store
      ensures TrimSpace(raw) == "" ==> outcome == NotFound && store.tokens == old(store.tokens)
      ensures TrimSpace(raw) != "" ==>
        Refreshed(store.tokens, outcome) ==
          RefreshAmid(old(store.tokens), meanwhile, later, hashOf(TrimSpace(raw)), now, statusOf, next, nextHash, ttl)
      ensures meanwhile == old(store.tokens) ==>
        (outcome.Session? <==>
          exists id :: Presents(meanwhile, raw, hashOf, id, now) && statusOf(meanwhile[id].user) == ActiveUser)
    {
      ghost var tokens := store.tokens;
      RefreshSucceedsIff(tokens, later, hashOf(TrimSpace(raw)), now, statusOf, next, nextHash, ttl);
      assert forall id :: Presents(tokens, raw, hashOf, id, now) <==>
        TrimSpace(raw) != "" && id in tokens && tokens[id].hash == hashOf(TrimSpace(raw)) && tokens[id].Active(now);
      var token := TrimSpace(raw);
      if token == "" {
        return NotFound;
      }
      var found := store.GetRefreshTokenByHash(hashOf(token));
      var read := if found.Some? then Some(store.tokens[found.value]) else None;
      store.tokens := meanwhile;
      if read == None {
        return NotFound;
      }
      var current := read.value;
      if !current.Live() {
        var _ := store.RevokeTokens(OfFamily(current.family), now);
        return Reused(current.family);
      }
      if current.expiresAt <= now {
        return Expired;
      }
      if statusOf(current.user) == NoSuchUser {
        return UserMissing;
      }
      if statusOf(current.user) == DisabledUser {
        return UserDisabled;
      }
      var rotated := store.RotateRefreshToken(found.value, next, Carried(current, nextHash, now, ttl), now);
      if !rotated {
        store.tokens := later;
        var _ := store.RevokeTokens(OfFamily(current.family), now);
        return Conflict(current.family);
      }
      return Session(found.value, next);
    }

    /** The presented token is no longer live, every other row is as it was, and a blank token changes
        nothing. */
    method SignOut(raw: string, now: Time)
      modifies store
      ensures store.tokens.Keys == old(store.tokens).Keys
      ensures forall id :: id in store.tokens && TrimSpace(raw) != "" && store.tokens[id].hash == hashOf(TrimSpace(raw)) ==>
        && store.tokens[id].revokedAt != None && store.tokens[id].Identity() == old(store.tokens)[id].Identity()
        && (old(store.tokens)[id].revokedAt != None ==> store.tokens[id] == old(store.tokens)[id])
      ensures forall id :: id in store.tokens && (TrimSpace(raw) == "" || store.tokens[id].hash != hashOf(TrimSpace(raw))) ==>
        store.tokens[id] == old(store.tokens)[id]
      ensures store.tokens ==
        if TrimSpace(raw) == "" then old(store.tokens) else Revoke(old(store.tokens), ByHash(hashOf(TrimSpace(raw))), now)
    {
      var token := TrimSpace(raw);
      if token == "" {
        return;
      }
      var _ := store.RevokeTokens(ByHash(hashOf(token)), now);
    }

    /** Only an active token may sign the user's other devices out; afterwards the user's only live rows
        are those of the caller's own family, unchanged. */
    method SignOutOtherSessions(raw: string, now: Time) returns (error: Option<SessionError>)
      requires UniqueHashes(store.tokens)
      modifies store
      ensures error == None <==> (exists id :: Presents(old(store.tokens), raw, hashOf, id, now))
      ensures error != None ==> error == Some(BadToken) && store.tokens == old(store.tokens)
      ensures forall id :: Presents(old(store.tokens), raw, hashOf, id, now) ==>
        OnlyFamilyLeft(old(store.tokens), store.tokens, old(store.tokens)[id])
    {
      var token := TrimSpace(raw);
      if token == "" {
        return Some(BadToken);
      }
      var found := store.GetRefreshTokenByHash(hashOf(token));
      if found == None {
        return Some(BadToken);
      }
      var current := store.tokens[found.value];
      if !current.Live() || current.expiresAt <= now {
        return Some(BadToken);
      }
      var _ := store.RevokeTokens(OfUserExcept(current.user, current.family), now);
      assert Presents(old(store.tokens), raw, hashOf, found.value, now);
      return None;
    }

    /** Succeeds exactly for a family that is on the user's active list, which it then is not. */
    method RevokeSession(user: Id, family: Id, now: Time) returns (error: Option<SessionError>)
      modifies store
      ensures error == None <==> (exists id :: IsSession(old(store.tokens), id, user, family) && old(store.tokens)[id].Active(now))
      ensures error != None ==> error == Some(SessionNotFound) && store.tokens == old(store.tokens)
      ensures forall id :: IsSession(store.tokens, id, user, family) ==> !store.tokens[id].Active(now)
      ensures store.tokens.Keys == old(store.tokens).Keys
      ensures forall id :: id in store.tokens && !IsSession(store.tokens, id, user, family) ==>
        store.tokens[id] == old(store.tokens)[id]
    {
      ghost var hit := set id | id in store.tokens && store.tokens[id].Live()
        && InScope(OneSession(user, family, now), store.tokens[id]);
      var revoked := store.RevokeTokens(OneSession(user, family, now), now);
      if revoked == 0 {
        assert forall id :: id in old(store.tokens) ==> id !in hit;
        return Some(SessionNotFound);
      }
      assert hit != {};
      ghost var id :| id in hit;
      return None;
    }

    /** The family of the presented token, when that token is a live one of the user. */
    method CurrentFamily(user: Id, raw: string) returns (family: Option<Id>)
      requires UniqueHashes(store.tokens)
      ensures family == CurrentFamilyOf(store.tokens, user, raw, hashOf)
    {
      var token := TrimSpace(raw);
      if token == "" {
        return None;
      }
      var found := store.GetRefreshTokenByHash(hashOf(token));
      if found == None || store.tokens[found.value].user != user || !store.tokens[found.value].Live() {
        return None;
      }
      return Some(store.tokens[found.value].family);
    }

    /** One entry for each active row, in list order, carrying that row's session. */
    method ListSessions(user: Id, raw: string, now: Time) returns (sessions: seq<SessionInfo>)
      requires UniqueHashes(store.tokens)
      ensures exists list ::
        && IsActiveList(store.tokens, user, now, list) && |sessions| == |list|
        && forall i :: 0 <= i < |list| ==>
             sessions[i] == InfoOf(store.tokens[list[i]], CurrentFamilyOf(store.tokens, user, raw, hashOf))
      ensures ShownTruly(store.tokens, user, raw, hashOf, sessions)
    {
      var list := store.ListActiveSessions(user, now);
      assert forall i :: 0 <= i < |list| ==> list[i] in list;
      var current := CurrentFamily(user, raw);
      sessions := [];
      for k := 0 to |list|
        invariant |sessions| == k
        invariant forall i :: 0 <= i < k ==> sessions[i] == InfoOf(store.tokens[list[i]], current)
      {
        sessions := sessions + [InfoOf(store.tokens[list[k]], current)];
      }
      ListedSessionsShow(store.tokens, user, raw, hashOf, list, sessions);
    }
  }

  /** A signed-out token never continues a session again: whenever it is presented, and whatever the
      status of its user. */
  lemma SignedOutTokenIsUseless(tokens: Table, hash: Hash, at: Time, now: Time, status: Id -> UserStatus,
                                next: Id, nextHash: Hash, ttl: Time)
    ensures !RefreshAlone(Revoke(tokens, ByHash(hash), at), hash, now, status, next, nextHash, ttl).outcome.Session?
  {
  }

  function InfoOf(row: Token, current: Option<Id>): SessionInfo {
    SessionInfo(row.family, row.client, row.lastUsedAt, row.createdAt, current == Some(row.family))
  }

  ghost function CurrentFamilyOf(tokens: Table, user: Id, raw: string, hashOf: string -> Hash): Option<Id> {
    if TrimSpace(raw) == "" then None
    else match Find(tokens, hashOf(TrimSpace(raw)))
      case None => None
      case Some(id) =>
        if tokens[id].user == user && tokens[id].Live() then Some(tokens[id].family) else None
  }

  /** In every reachable table, at most one listed session is marked as the current one. */
  lemma AtMostOneCurrentSession(s: State, run: seq<Event>, user: Id, now: Time, list: seq<Id>, current: Option<Id>,
                                i: nat, j: nat)
    requires Init(s) && ValidRun(s, run)
    requires IsActiveList(Exec(s, run).tokens, user, now, list) && i < |list| && j < |list|
    requires list[i] in Exec(s, run).tokens && list[j] in Exec(s, run).tokens
    requires InfoOf(Exec(s, run).tokens[list[i]], current).current && InfoOf(Exec(s, run).tokens[list[j]], current).current
    ensures i == j
  {
    ReachableTableIsWellFormed(s, run);
    assert list[i] in list && list[j] in list;
  }
}
