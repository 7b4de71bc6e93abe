/**
 One-time tokens for password reset and email verification: the statements on auth_tokens, the
 transactions that spend a token, and what any interleaving of them guarantees.
 */
module AuthTokens {
  import opened Wrappers
  import RefreshTokens
  import RotationSafety

  type Id = nat
  type Hash = nat
  type Time = int

  datatype Purpose = PasswordReset | EmailVerification

  datatype AuthToken = AuthToken(
    user: Id, purpose: Purpose, hash: Hash, expiresAt: Time, usedAt: Option<Time>, createdAt: Time)

  datatype Account = Account(passwordHash: string, disabled: bool, verifiedAt: Option<Time>, updatedAt: Time)

  datatype AuditEvent = PasswordChanged(user: Id) | PasswordWasReset(user: Id) | EmailVerified(user: Id)

  /** The tables a unit of work writes; audit holds the events recorded inside transactions. */
  datatype Db = Db(
    users: map<Id, Account>, tokens: map<Id, AuthToken>, sessions: RefreshTokens.Table, audit: seq<AuditEvent>)

  // ----- Statements -----

  predicate Spendable(token: AuthToken, purpose: Purpose, hash: Hash, now: Time) {
    token.hash == hash && token.purpose == purpose && token.usedAt.None? && token.expiresAt > now
  }

  /** token_hash is UNIQUE. */
  ghost predicate HashesUnique(tokens: map<Id, AuthToken>) {
    forall a, b :: a in tokens && b in tokens && tokens[a].hash == tokens[b].hash ==> a == b
  }

  ghost function FindSpendable(tokens: map<Id, AuthToken>, purpose: Purpose, hash: Hash, now: Time): Option<Id> {
    if id :| id in tokens && Spendable(tokens[id], purpose, hash, now) then Some(id) else None
  }

  lemma SpendableIsFound(tokens: map<Id, AuthToken>, purpose: Purpose, hash: Hash, now: Time, id: Id)
    requires HashesUnique(tokens) && id in tokens && Spendable(tokens[id], purpose, hash, now)
    ensures FindSpendable(tokens, purpose, hash, now) == Some(id)
  {
  }

  function Spent(db: Db, id: Id, now: Time): Db
    requires id in db.tokens
  {
    db.(tokens := db.tokens[id := db.tokens[id].(usedAt := Some(now))])
  }

  function PasswordSet(db: Db, user: Id, passwordHash: string, now: Time): Db {
    if user !in db.users then db
    else db.(users := db.users[user := db.users[user].(passwordHash := passwordHash, updatedAt := now)])
  }

  function VerifiedSet(db: Db, user: Id, now: Time): Db {
    if user !in db.users then db
    else db.(users := db.users[user := db.users[user].(verifiedAt := Some(now), updatedAt := now)])
  }

  function SessionsRevoked(db: Db, user: Id, now: Time): Db {
    db.(sessions := RefreshTokens.Revoke(db.sessions, RefreshTokens.OfUser(user), now))
  }

  function Recorded(db: Db, event: AuditEvent): Db {
    db.(audit := db.audit + [event])
  }

  function DeleteForUser(db: Db, user: Id, purpose: Purpose): Db {
    db.(tokens := map id | id in db.tokens && !(db.tokens[id].user == user && db.tokens[id].purpose == purpose) ::
      db.tokens[id])
  }

  function Created(db: Db, id: Id, token: AuthToken): Db {
    db.(tokens := db.tokens[id := token])
  }

  /** DELETE ... WHERE used_at IS NOT NULL OR expires_at < now(). */
  function Purged(db: Db, dbNow: Time): Db {
    db.(tokens := map id | id in db.tokens && db.tokens[id].usedAt.None? && db.tokens[id].expiresAt >= dbNow ::
      db.tokens[id])
  }

  // ----- Transactions -----

  /** Everything a committed password reset does. */
  function ResetDone(db: Db, id: Id, passwordHash: string, now: Time): Db
    requires id in db.tokens
  {
    var user := db.tokens[id].user;
    Recorded(SessionsRevoked(PasswordSet(Spent(db, id, now), user, passwordHash, now), user, now), PasswordWasReset(user))
  }

  function VerifyDone(db: Db, id: Id, now: Time): Db
    requires id in db.tokens
  {
    var user := db.tokens[id].user;
    Recorded(VerifiedSet(Spent(db, id, now), user, now), EmailVerified(user))
  }

  function ChangeDone(db: Db, user: Id, passwordHash: string, now: Time): Db {
    Recorded(SessionsRevoked(PasswordSet(db, user, passwordHash, now), user, now), PasswordChanged(user))
  }

  /** A committed reset is a committed password change as far as sessions go: no refresh token that
      existed at the commit, nor a descendant of one, is rotated again in any continuation of the
      rotation protocol, and what the user has live later was started afterwards. */
  lemma ResetEndsSessions(
      db: Db, id: Id, passwordHash: string, now: Time, s: RefreshTokens.State, run: seq<RefreshTokens.Event>)
    requires id in db.tokens && s.tokens == db.sessions && RefreshTokens.Inv(s)
    requires RefreshTokens.ValidRun(s.(tokens := ResetDone(db, id, passwordHash, now).sessions), run)
    ensures var user, t := db.tokens[id].user,
        RefreshTokens.Exec(s.(tokens := ResetDone(db, id, passwordHash, now).sessions), run);
      && (forall row :: row in t.tokens && t.tokens[row].user == user && t.tokens[row].Live() ==>
           t.tokens[row].family !in s.chains)
      && (forall a :: a in s.log && s.log[a].user == user ==> RotationSafety.NoNewSession(s, t, s.log[a].family))
  {
    RotationSafety.PasswordChangeEndsSessions(s, db.tokens[id].user, now, run);
  }

  // ----- Any interleaving -----

  /** A transaction either commits or, on a fault anywhere in it, rolls back. */
  datatype Event =
    | DeleteStatement(user: Id, purpose: Purpose)
    | CreateStatement(id: Id, token: AuthToken)
    | ResetTransaction(hash: Hash, passwordHash: string, now: Time, faulty: bool)
    | VerifyTransaction(hash: Hash, now: Time, faulty: bool)
    | ChangeTransaction(user: Id, passwordHash: string, now: Time, faulty: bool)
    | ConsumeStatement(purpose: Purpose, hash: Hash, now: Time)
    | PurgeStatement(dbNow: Time)

  /** The tables, every hash ever stored, and every hash that was accepted. */
  datatype State = State(db: Db, issued: set<Hash>, accepted: multiset<Hash>)

  /** Row ids and hashes are fresh. */
  predicate CanHappen(s: State, e: Event) {
    e.CreateStatement? ==> e.id !in s.db.tokens && e.token.hash !in s.issued && e.token.usedAt.None?
  }

  /** The hash an event accepts: that of a spendable token, unless the transaction rolls back. */
  ghost function AcceptedBy(db: Db, e: Event): multiset<Hash> {
    match e
    case ResetTransaction(hash, _, now, faulty) =>
      if !faulty && FindSpendable(db.tokens, PasswordReset, hash, now).Some? then multiset{hash} else multiset{}
    case VerifyTransaction(hash, now, faulty) =>
      if !faulty && FindSpendable(db.tokens, EmailVerification, hash, now).Some? then multiset{hash} else multiset{}
    case ConsumeStatement(purpose, hash, now) =>
      if FindSpendable(db.tokens, purpose, hash, now).Some? then multiset{hash} else multiset{}
    case _ => multiset{}
  }

  /** What an event does to the tables. */
  ghost function DbAfter(db: Db, e: Event): Db {
    match e
    case DeleteStatement(user, purpose) => DeleteForUser(db, user, purpose)
    case CreateStatement(id, token) => Created(db, id, token)
    case ResetTransaction(hash, passwordHash, now, faulty) =>
      var found := FindSpendable(db.tokens, PasswordReset, hash, now);
      if faulty || found.None? then db else ResetDone(db, found.value, passwordHash, now)
    case VerifyTransaction(hash, now, faulty) =>
      var found := FindSpendable(db.tokens, EmailVerification, hash, now);
      if faulty || found.None? then db else VerifyDone(db, found.value, now)
    case ChangeTransaction(user, passwordHash, now, faulty) =>
      if faulty then db else ChangeDone(db, user, passwordHash, now)
    case ConsumeStatement(purpose, hash, now) =>
      var found := FindSpendable(db.tokens, purpose, hash, now);
      if found.None? then db else Spent(db, found.value, now)
    case PurgeStatement(dbNow) => Purged(db, dbNow)
  }

  ghost function Apply(s: State, e: Event): State {
    State(
      DbAfter(s.db, e),
      if e.CreateStatement? then s.issued + {e.token.hash} else s.issued,
      s.accepted + AcceptedBy(s.db, e))
  }

  ghost predicate ValidRun(s: State, run: seq<Event>)
    decreases |run|
  {
    run == [] || (CanHappen(s, run[0]) && ValidRun(Apply(s, run[0]), run[1..]))
  }

  ghost function Exec(s: State, run: seq<Event>): State
    decreases |run|
  {
    if run == [] then s else Exec(Apply(s, run[0]), run[1..])
  }

  ghost predicate Init(s: State) {
    s.db.tokens == map[] && s.accepted == multiset{}
  }

  /** A stored token was issued once, and was accepted once if it is used and never otherwise. */
  ghost predicate Inv(s: State) {
    && HashesUnique(s.db.tokens)
    && (forall id :: id in s.db.tokens ==>
         var token := s.db.tokens[id];
         token.hash in s.issued && s.accepted[token.hash] == if token.usedAt.Some? then 1 else 0)
    && (forall hash :: hash in s.accepted ==> hash in s.issued && s.accepted[hash] == 1)
  }

  /** Every event that spends a token changes the token table in the same way. */
  lemma AcceptShape(s: State, e: Event)
    requires e.ResetTransaction? || e.VerifyTransaction? || e.ConsumeStatement?
    ensures var t := Apply(s, e); t == s || exists id ::
      && id in s.db.tokens && s.db.tokens[id].usedAt.None? && t.issued == s.issued
      && t.db.tokens == s.db.tokens[id := s.db.tokens[id].(usedAt := Some(e.now))]
      && t.accepted == s.accepted + multiset{s.db.tokens[id].hash}
  {
  }

  lemma StepKeepsInv(s: State, e: Event)
    requires Inv(s) && CanHappen(s, e)
    ensures Inv(Apply(s, e))
  {
    if e.ResetTransaction? || e.VerifyTransaction? || e.ConsumeStatement? {
      AcceptKeepsInv(s, e);
    }
  }

  lemma AcceptKeepsInv(s: State, e: Event)
    requires Inv(s) && (e.ResetTransaction? || e.VerifyTransaction? || e.ConsumeStatement?)
    ensures Inv(Apply(s, e))
  {
    AcceptShape(s, e);
  }

  lemma {:induction false} RunKeepsInv(s: State, run: seq<Event>)
    requires Inv(s) && ValidRun(s, run)
    ensures Inv(Exec(s, run))
    decreases |run|
  {
    if run != [] {
      StepKeepsInv(s, run[0]);
      RunKeepsInv(Apply(s, run[0]), run[1..]);
    }
  }

  /** However resets, verifications and everything else interleave, a token is accepted at most once. */
  lemma AcceptedAtMostOnce(s: State, run: seq<Event>, hash: Hash)
    requires Init(s) && ValidRun(s, run)
    ensures Exec(s, run).accepted[hash] <= 1
  {
    RunKeepsInv(s, run);
  }

  ghost predicate StoredFor(db: Db, id: Id, purpose: Purpose, hash: Hash, now: Time) {
    id in db.tokens && db.tokens[id].hash == hash && db.tokens[id].purpose == purpose && db.tokens[id].expiresAt > now
  }

  /** A token is accepted exactly when it is stored for that purpose, has not expired and was not
      accepted before. */
  lemma AcceptedIff(s: State, run: seq<Event>, purpose: Purpose, hash: Hash, now: Time)
    requires Init(s) && ValidRun(s, run)
    ensures var t := Exec(s, run);
      FindSpendable(t.db.tokens, purpose, hash, now).Some? <==>
        t.accepted[hash] == 0 && exists id :: StoredFor(t.db, id, purpose, hash, now)
  {
    RunKeepsInv(s, run);
    var t := Exec(s, run);
    if id :| id in t.db.tokens && Spendable(t.db.tokens[id], purpose, hash, now) {
      assert StoredFor(t.db, id, purpose, hash, now);
    }
    if id :| StoredFor(t.db, id, purpose, hash, now) && t.accepted[hash] == 0 {
      assert Spendable(t.db.tokens[id], purpose, hash, now);
    }
  }

  /** From before to after the token is used and one event recorded, and no other token changes. */
  ghost predicate TokenSpent(before: Db, after: Db, id: Id, event: AuditEvent, now: Time)
    requires id in before.tokens
  {
    && after.tokens == before.tokens[id := before.tokens[id].(usedAt := Some(now))]
    && after.audit == before.audit + [event]
    && after.users.Keys == before.users.Keys
    && (forall other :: other in before.users && other != before.tokens[id].user ==> after.users[other] == before.users[other])
  }

  /** A reset, table by table: the owner has the new password and no live session, and nobody else's
      account or session changes. */
  ghost predicate ResetEffects(before: Db, after: Db, id: Id, passwordHash: string, now: Time)
    requires id in before.tokens
  {
    var user := before.tokens[id].user;
    && TokenSpent(before, after, id, PasswordWasReset(user), now)
    && (user in before.users ==>
         && after.users[user].passwordHash == passwordHash && after.users[user].updatedAt == now
         && after.users[user].(passwordHash := "", updatedAt := 0) == before.users[user].(passwordHash := "", updatedAt := 0))
    && after.sessions.Keys == before.sessions.Keys
    && forall row :: row in before.sessions ==>
         if before.sessions[row].user == user then !after.sessions[row].Live()
         else after.sessions[row] == before.sessions[row]
  }

  /** A verification, table by table: the owner is verified, and nothing else of any account changes. */
  ghost predicate VerifyEffects(before: Db, after: Db, id: Id, now: Time)
    requires id in before.tokens
  {
    var user := before.tokens[id].user;
    && TokenSpent(before, after, id, EmailVerified(user), now)
    && (user in before.users ==>
         && after.users[user].verifiedAt == Some(now) && after.users[user].updatedAt == now
         && after.users[user].(verifiedAt := None, updatedAt := 0) == before.users[user].(verifiedAt := None, updatedAt := 0))
    && after.sessions == before.sessions
  }

  lemma ResetDoneEffects(db: Db, id: Id, passwordHash: string, now: Time)
    requires id in db.tokens
    ensures ResetEffects(db, ResetDone(db, id, passwordHash, now), id, passwordHash, now)
  {
  }

  lemma VerifyDoneEffects(db: Db, id: Id, now: Time)
    requires id in db.tokens
    ensures VerifyEffects(db, VerifyDone(db, id, now), id, now)
  {
  }

  /** In one step an unused token becomes used exactly when it is a live one of the purpose and no step
      fails; then its whole transaction shows in every table, and otherwise nothing changes. */
  lemma ResetIsAllOrNothing(s: State, hash: Hash, passwordHash: string, now: Time, faulty: bool, id: Id)
    requires Inv(s) && id in s.db.tokens && s.db.tokens[id].hash == hash && s.db.tokens[id].usedAt.None?
    ensures var t := Apply(s, ResetTransaction(hash, passwordHash, now, faulty));
      if !faulty && s.db.tokens[id].purpose == PasswordReset && s.db.tokens[id].expiresAt > now then
        ResetEffects(s.db, t.db, id, passwordHash, now) && t.accepted == s.accepted + multiset{hash}
      else t == s
  {
    if Spendable(s.db.tokens[id], PasswordReset, hash, now) {
      SpendableIsFound(s.db.tokens, PasswordReset, hash, now, id);
      ResetDoneEffects(s.db, id, passwordHash, now);
    }
  }

  lemma VerifyIsAllOrNothing(s: State, hash: Hash, now: Time, faulty: bool, id: Id)
    requires Inv(s) && id in s.db.tokens && s.db.tokens[id].hash == hash && s.db.tokens[id].usedAt.None?
    ensures var t := Apply(s, VerifyTransaction(hash, now, faulty));
      if !faulty && s.db.tokens[id].purpose == EmailVerification && s.db.tokens[id].expiresAt > now then
        VerifyEffects(s.db, t.db, id, now) && t.accepted == s.accepted + multiset{hash}
      else t == s
  {
    if Spendable(s.db.tokens[id], EmailVerification, hash, now) {
      SpendableIsFound(s.db.tokens, EmailVerification, hash, now, id);
      VerifyDoneEffects(s.db, id, now);
    }
  }

  // ----- Superseding -----

  lemma HashesAreNotReissued(s: State, e: Event, id: Id)
    requires CanHappen(s, e) && id in Apply(s, e).db.tokens && Apply(s, e).db.tokens[id].hash in s.issued
    ensures id in s.db.tokens && s.db.tokens[id] == Apply(s, e).db.tokens[id].(usedAt := s.db.tokens[id].usedAt)
    ensures s.issued <= Apply(s, e).issued
  {
    if e.ResetTransaction? || e.VerifyTransaction? || e.ConsumeStatement? {
      AcceptShape(s, e);
    }
  }

  /** A token stored later with an old hash was stored before, with the same owner and purpose. */
  lemma {:induction false} OldHashesAreOldTokens(s: State, run: seq<Event>, id: Id)
    requires ValidRun(s, run) && id in Exec(s, run).db.tokens && Exec(s, run).db.tokens[id].hash in s.issued
    ensures id in s.db.tokens && s.db.tokens[id] == Exec(s, run).db.tokens[id].(usedAt := s.db.tokens[id].usedAt)
    decreases |run|
  {
    if run != [] {
      var t := Apply(s, run[0]);
      IssuedGrows(s, run[0]);
      OldHashesAreOldTokens(t, run[1..], id);
      HashesAreNotReissued(s, run[0], id);
    }
  }

  lemma IssuedGrows(s: State, e: Event)
    ensures s.issued <= Apply(s, e).issued
  {
  }

  /** Every stored row with this hash, if there is one, is of that user and purpose. */
  ghost predicate BelongsTo(s: State, hash: Hash, user: Id, purpose: Purpose) {
    forall id :: id in s.db.tokens && s.db.tokens[id].hash == hash ==>
      s.db.tokens[id].user == user && s.db.tokens[id].purpose == purpose
  }

  /** The delete alone supersedes: once it went through, no token issued before it to that user for that
      purpose is accepted in any continuation, whether or not the create that follows is overtaken. */
  lemma DeleteSupersedes(s: State, user: Id, purpose: Purpose, run: seq<Event>, earlier: Hash, now: Time)
    requires ValidRun(Apply(s, DeleteStatement(user, purpose)), run)
    requires earlier in s.issued && BelongsTo(s, earlier, user, purpose)
    ensures FindSpendable(Exec(Apply(s, DeleteStatement(user, purpose)), run).db.tokens, purpose, earlier, now).None?
  {
    var deleted := Apply(s, DeleteStatement(user, purpose));
    var t := Exec(deleted, run);
    if found :| found in t.db.tokens && Spendable(t.db.tokens[found], purpose, earlier, now) {
      OldHashesAreOldTokens(deleted, run, found);
    }
  }

  /** An issuing call: its delete, whatever others do in the meantime, and its create. */
  ghost predicate IssueRuns(s: State, middle: seq<Event>, id: Id, token: AuthToken) {
    var deleted := Apply(s, DeleteStatement(token.user, token.purpose));
    ValidRun(deleted, middle) && CanHappen(Exec(deleted, middle), CreateStatement(id, token))
  }

  /** The tables when the create of the call is about to run, and when it has. */
  ghost function BeforeCreate(s: State, middle: seq<Event>, token: AuthToken): State {
    Exec(Apply(s, DeleteStatement(token.user, token.purpose)), middle)
  }

  ghost function AfterCreate(s: State, middle: seq<Event>, id: Id, token: AuthToken): State {
    Apply(BeforeCreate(s, middle, token), CreateStatement(id, token))
  }

  /** Exactly which other token of the user and purpose works once the call has returned: one that was
      not yet issued at the delete and that works at the create. */
  lemma OtherTokenWorksIff(s: State, middle: seq<Event>, id: Id, token: AuthToken, other: Hash, now: Time)
    requires Inv(s) && IssueRuns(s, middle, id, token) && other != token.hash
    requires BelongsTo(s, other, token.user, token.purpose)
    ensures FindSpendable(AfterCreate(s, middle, id, token).db.tokens, token.purpose, other, now).Some? <==>
      other !in s.issued && FindSpendable(BeforeCreate(s, middle, token).db.tokens, token.purpose, other, now).Some?
  {
    if other in s.issued {
      DeleteSupersedes(s, token.user, token.purpose, middle, other, now);
    }
    CreateKeepsOthers(BeforeCreate(s, middle, token), id, token, other, now);
  }

  lemma CreateKeepsOthers(m: State, id: Id, token: AuthToken, other: Hash, now: Time)
    requires CanHappen(m, CreateStatement(id, token)) && other != token.hash
    ensures FindSpendable(Apply(m, CreateStatement(id, token)).db.tokens, token.purpose, other, now).Some? <==>
      FindSpendable(m.db.tokens, token.purpose, other, now).Some?
  {
    var after := Apply(m, CreateStatement(id, token));
    if found :| found in m.db.tokens && Spendable(m.db.tokens[found], token.purpose, other, now) {
      assert found in after.db.tokens && after.db.tokens[found] == m.db.tokens[found];
    }
  }

  /** Some token of the user and purpose works. */
  ghost predicate AnyWorks(s: State, user: Id, purpose: Purpose, now: Time) {
    exists id :: id in s.db.tokens && s.db.tokens[id].user == user && Spendable(s.db.tokens[id], purpose, s.db.tokens[id].hash, now)
  }

  /** The new token is the only one of its user and purpose that works. */
  ghost predicate OnlyNewWorks(s: State, id: Id, token: AuthToken, now: Time) {
    forall other ::
      (other in s.db.tokens && s.db.tokens[other].user == token.user
       && Spendable(s.db.tokens[other], token.purpose, s.db.tokens[other].hash, now)) ==> other == id
  }

  /** The call leaves its token as the only one that works exactly when no token of that user and purpose
      works at the moment of the create, which a condition on the insert could see. */
  lemma NewTokenIsOnlyOneIff(s: State, middle: seq<Event>, id: Id, token: AuthToken, now: Time)
    requires IssueRuns(s, middle, id, token)
    ensures OnlyNewWorks(AfterCreate(s, middle, id, token), id, token, now) <==>
      !AnyWorks(BeforeCreate(s, middle, token), token.user, token.purpose, now)
  {
    var m, after := BeforeCreate(s, middle, token), AfterCreate(s, middle, id, token);
    if AnyWorks(m, token.user, token.purpose, now) {
      var other :| other in m.db.tokens && m.db.tokens[other].user == token.user
        && Spendable(m.db.tokens[other], token.purpose, m.db.tokens[other].hash, now);
      assert other != id;
      assert after.db.tokens[other] == m.db.tokens[other];
    }
  }

  ghost predicate NoneStored(s: State, user: Id, purpose: Purpose) {
    forall id :: id in s.db.tokens ==> s.db.tokens[id].user != user || s.db.tokens[id].purpose != purpose
  }

  lemma {:induction false} NoneCreatedNoneStored(s: State, run: seq<Event>, user: Id, purpose: Purpose)
    requires ValidRun(s, run) && forall e :: e in run ==> !CreatesFor(e, user, purpose)
    requires NoneStored(s, user, purpose)
    ensures NoneStored(Exec(s, run), user, purpose)
    decreases |run|
  {
    if run != [] {
      assert run[0] in run;
      if run[0].ResetTransaction? || run[0].VerifyTransaction? || run[0].ConsumeStatement? {
        AcceptShape(s, run[0]);
      }
      NoneCreatedNoneStored(Apply(s, run[0]), run[1..], user, purpose);
    }
  }

  predicate CreatesFor(e: Event, user: Id, purpose: Purpose) {
    e.CreateStatement? && e.token.user == user && e.token.purpose == purpose
  }

  /** In particular it is the only one whenever no other call creates one of that user and purpose between
      the delete and the create. */
  lemma UncontestedTokenIsOnlyOne(s: State, middle: seq<Event>, id: Id, token: AuthToken, now: Time)
    requires IssueRuns(s, middle, id, token) && forall e :: e in middle ==> !CreatesFor(e, token.user, token.purpose)
    ensures OnlyNewWorks(AfterCreate(s, middle, id, token), id, token, now)
  {
    NoneCreatedNoneStored(Apply(s, DeleteStatement(token.user, token.purpose)), middle, token.user, token.purpose);
    assert NoneStored(BeforeCreate(s, middle, token), token.user, token.purpose);
    NewTokenIsOnlyOneIff(s, middle, id, token, now);
  }

  /** So a call whose two statements have nothing between them leaves just its own token working, and no
      earlier token of that user and purpose is accepted again, whatever comes afterwards. */
  lemma NewTokenSupersedes(s: State, id: Id, token: AuthToken, run: seq<Event>, earlier: Hash, now: Time)
    requires Inv(s) && IssueRuns(s, [], id, token) && ValidRun(AfterCreate(s, [], id, token), run)
    requires earlier in s.issued && BelongsTo(s, earlier, token.user, token.purpose)
    ensures OnlyNewWorks(AfterCreate(s, [], id, token), id, token, now)
    ensures FindSpendable(Exec(AfterCreate(s, [], id, token), run).db.tokens, token.purpose, earlier, now).None?
  {
    UncontestedTokenIsOnlyOne(s, [], id, token, now);
    var create := CreateStatement(id, token);
    assert ([create] + run)[1..] == run;
    DeleteSupersedes(s, token.user, token.purpose, [create] + run, earlier, now);
  }

  lemma RunOne(s: State, e: Event, rest: seq<Event>)
    ensures ValidRun(s, [e] + rest) <==> CanHappen(s, e) && ValidRun(Apply(s, e), rest)
    ensures Exec(s, [e] + rest) == Exec(Apply(s, e), rest)
  {
    assert ([e] + rest)[1..] == rest;
  }

  /** Two issuing calls that both delete before either creates. */
  function CrossedIssues(a: AuthToken, b: AuthToken): seq<Event> {
    [DeleteStatement(a.user, a.purpose)]
      + ([DeleteStatement(b.user, b.purpose)] + ([CreateStatement(1, a)] + ([CreateStatement(2, b)] + [])))
  }

  /** The condition can fail: they leave two tokens that work. */
  lemma InterleavedIssuesLeaveTwo(s: State, a: AuthToken, b: AuthToken, now: Time)
    requires Init(s) && a.hash != b.hash && a.hash !in s.issued && b.hash !in s.issued
    requires a.user == b.user && a.purpose == b.purpose && a.usedAt.None? && b.usedAt.None?
    requires a.expiresAt > now && b.expiresAt > now
    ensures var run := CrossedIssues(a, b);
      && ValidRun(s, run)
      && FindSpendable(Exec(s, run).db.tokens, a.purpose, a.hash, now) == Some(1)
      && FindSpendable(Exec(s, run).db.tokens, b.purpose, b.hash, now) == Some(2)
  {
    var delete, first, second := DeleteStatement(a.user, a.purpose), CreateStatement(1, a), CreateStatement(2, b);
    var s1 := Apply(s, delete);
    var s2 := Apply(s1, delete);
    assert s2.db.tokens == map[];
    var s3 := Apply(s2, first);
    RunOne(s3, second, []);
    RunOne(s2, first, [second] + []);
    RunOne(s1, delete, [first] + ([second] + []));
    RunOne(s, delete, [delete] + ([first] + ([second] + [])));
    var tokens := Apply(s3, second).db.tokens;
    assert tokens == map[1 := a, 2 := b];
    SpendableIsFound(tokens, a.purpose, a.hash, now, 1);
    SpendableIsFound(tokens, b.purpose, b.hash, now, 2);
  }
}
