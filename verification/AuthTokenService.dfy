/**
 The unit of work as a transaction that is begun, worked in and then committed or rolled back, and the
 service calls that run in it. A store call or commit that the database refuses is an input: the number
 of the step that fails.
 */
module AuthTokenService {
  import opened AuthTokens
  import opened Text
  import opened Wrappers
  import RefreshTokens

  type Bytes = seq<bv8>

  const MIN_PASSWORD_LENGTH := 8
  const MAX_PASSWORD_LENGTH := 4096
  const SECOND: Time := 1_000_000_000
  const PASSWORD_RESET_TTL: Time := 3600 * SECOND
  const EMAIL_VERIFICATION_TTL: Time := 86400 * SECOND

  datatype Error = InvalidInput | InvalidToken | InvalidCredentials | UserDisabled | StoreFailure

  datatype Step = BeginStep | ConsumeStep | UpdateStep | RevokeStep | AuditStep | CommitStep

  /** None, or the step of the transaction that the database fails. */
  type Fault = Option<Step>

  /** One of the steps fails; the transactions of the interleaved runs are then faulty. */
  predicate Fails(fault: Fault, steps: set<Step>) {
    fault.Some? && fault.value in steps
  }

  /** The row is the one the raw token stands for, and it can still be spent. */
  ghost predicate NamesLive(db: Db, id: Id, purpose: Purpose, hash: Hash, rawToken: string, now: Time) {
    && TrimSpace(rawToken) != "" && id in db.tokens && db.tokens[id].hash == hash
    && db.tokens[id].purpose == purpose && db.tokens[id].usedAt == None && db.tokens[id].expiresAt > now
  }

  /** A password change, table by table: the user has the new password and no live session, one event is
      recorded, and no token and nobody else's account or session changes. */
  ghost predicate ChangeEffects(before: Db, after: Db, user: Id, passwordHash: string, now: Time) {
    && after.tokens == before.tokens && after.audit == before.audit + [PasswordChanged(user)]
    && PasswordReplaced(before, after, user, passwordHash, now) && SessionsEnded(before, after, user)
  }

  ghost predicate PasswordReplaced(before: Db, after: Db, user: Id, passwordHash: string, now: Time) {
    && after.users.Keys == before.users.Keys
    && (forall other :: other in before.users && other != user ==> after.users[other] == before.users[other])
    && (user in before.users ==>
         && after.users[user].passwordHash == passwordHash && after.users[user].updatedAt == now
         && after.users[user].disabled == before.users[user].disabled
         && after.users[user].verifiedAt == before.users[user].verifiedAt)
  }

  ghost predicate SessionsEnded(before: Db, after: Db, user: Id) {
    && after.sessions.Keys == before.sessions.Keys
    && forall row :: row in before.sessions ==>
         if before.sessions[row].user == user then after.sessions[row].revokedAt != None
         else after.sessions[row] == before.sessions[row]
  }

  /** A connection in a transaction: working is what its own statements see, committed what every
      other connection sees. */
  class Transaction {
    var committed: Db
    var working: Db
    const fault: Fault

    constructor (db: Db, fault: Fault)
      ensures committed == working == db && this.fault == fault
    {
      committed, working, this.fault := db, db, fault;
    }

    method Begin() returns (ok: bool)
      modifies this`working
      ensures working == committed && (ok <==> fault != Some(BeginStep))
    {
      working := committed;
      ok := fault != Some(BeginStep);
    }

    method Commit() returns (ok: bool)
      modifies this`committed
      ensures ok <==> fault != Some(CommitStep)
      ensures committed == if ok then working else old(committed)
    {
      ok := fault != Some(CommitStep);
      if ok {
        committed := working;
      }
    }

    /** Outside a transaction every statement commits by itself. */
    method AutoCommit()
      modifies this`committed
      ensures committed == working
    {
      committed := working;
    }

    method Rollback()
      modifies this`working
      ensures working == committed
    {
      working := committed;
    }

    /** UpdateStep auth_tokens ... RETURNING: at most one row matches. */
    method ConsumeAuthToken(purpose: Purpose, hash: Hash, usedAt: Time) returns (r: Result<AuthToken, Error>)
      requires HashesUnique(working.tokens)
      modifies this`working
      ensures var found := FindSpendable(old(working).tokens, purpose, hash, usedAt);
        if fault == Some(ConsumeStep) then r == Err(StoreFailure) && working == old(working)
        else if found.None? then r == Err(InvalidToken) && working == old(working)
        else
          && r == Ok(old(working).tokens[found.value].(usedAt := Some(usedAt)))
          && working == Spent(old(working), found.value, usedAt)
    {
      if fault == Some(ConsumeStep) {
        return Err(StoreFailure);
      }
      if !exists id :: id in working.tokens && Spendable(working.tokens[id], purpose, hash, usedAt) {
        return Err(InvalidToken);
      }
      var id :| id in working.tokens && Spendable(working.tokens[id], purpose, hash, usedAt);
      SpendableIsFound(working.tokens, purpose, hash, usedAt, id);
      working := Spent(working, id, usedAt);
      return Ok(working.tokens[id]);
    }

    method UpdateUserPassword(user: Id, passwordHash: string, now: Time) returns (ok: bool)
      modifies this`working
      ensures ok <==> fault != Some(UpdateStep)
      ensures working == if ok then PasswordSet(old(working), user, passwordHash, now) else old(working)
    {
      ok := fault != Some(UpdateStep);
      if ok && user in working.users {
        var account := working.users[user].(passwordHash := passwordHash, updatedAt := now);
        working := working.(users := working.users[user := account]);
      }
    }

    method SetEmailVerified(user: Id, now: Time) returns (ok: bool)
      modifies this`working
      ensures ok <==> fault != Some(UpdateStep)
      ensures working == if ok then VerifiedSet(old(working), user, now) else old(working)
    {
      ok := fault != Some(UpdateStep);
      if ok && user in working.users {
        var account := working.users[user].(verifiedAt := Some(now), updatedAt := now);
        working := working.(users := working.users[user := account]);
      }
    }

    method RevokeAllForUser(user: Id, now: Time) returns (ok: bool)
      modifies this`working
      ensures ok <==> fault != Some(RevokeStep)
      ensures working == if ok then SessionsRevoked(old(working), user, now) else old(working)
    {
      ok := fault != Some(RevokeStep);
      if ok {
        working := working.(sessions := RefreshTokens.Revoke(working.sessions, RefreshTokens.OfUser(user), now));
      }
    }

    method RecordAuthEvent(event: AuditEvent) returns (ok: bool)
      modifies this`working
      ensures ok <==> fault != Some(AuditStep)
      ensures working == if ok then Recorded(old(working), event) else old(working)
    {
      ok := fault != Some(AuditStep);
      if ok {
        working := working.(audit := working.audit + [event]);
      }
    }
  }

  lemma FailsIff(fault: Fault)
    ensures Fails(fault, {BeginStep, ConsumeStep, UpdateStep, RevokeStep, AuditStep, CommitStep}) <==> fault != None
    ensures Fails(fault, {BeginStep, ConsumeStep, UpdateStep, AuditStep, CommitStep}) <==> fault != None && fault != Some(RevokeStep)
    ensures Fails(fault, {BeginStep, UpdateStep, RevokeStep, AuditStep, CommitStep}) <==> fault != None && fault != Some(ConsumeStep)
  {
    if fault.Some? {
      match fault.value
      case BeginStep =>
      case ConsumeStep =>
      case UpdateStep =>
      case RevokeStep =>
      case AuditStep =>
      case CommitStep =>
    }
  }

  lemma LiveIsFound(db: Db, purpose: Purpose, hash: Hash, rawToken: string, now: Time)
    requires HashesUnique(db.tokens)
    ensures forall id: Id :: NamesLive(db, id, purpose, hash, rawToken, now) <==>
      TrimSpace(rawToken) != "" && FindSpendable(db.tokens, purpose, hash, now) == Some(id)
  {
  }

  class Service {
    /** The SHA-256 of a token. */
    const digest: string -> Hash
    /** Whether a password has this hash. */
    const matches: (Bytes, string) -> bool

    constructor (digest: string -> Hash, matches: (Bytes, string) -> bool)
      ensures this.digest == digest && this.matches == matches
    {
      this.digest, this.matches := digest, matches;
    }

    predicate PasswordOk(password: Bytes) {
      MIN_PASSWORD_LENGTH <= |password| <= MAX_PASSWORD_LENGTH
    }

    /** How a token is refused, or its transaction fails: a blank or unusable token is invalid. */
    function SpendError(fault: Fault, rawToken: string, found: Option<Id>): Error {
      if TrimSpace(rawToken) == "" then InvalidToken
      else if fault == Some(ConsumeStep) then StoreFailure
      else if found.None? then InvalidToken
      else StoreFailure
    }

    method ConsumeAuthToken(tx: Transaction, purpose: Purpose, rawToken: string, now: Time)
      returns (r: Result<AuthToken, Error>)
      requires HashesUnique(tx.working.tokens)
      modifies tx`working
      ensures var found := FindSpendable(old(tx.working).tokens, purpose, digest(TrimSpace(rawToken)), now);
        if TrimSpace(rawToken) != "" && found.Some? && tx.fault != Some(ConsumeStep) then
          && r == Ok(old(tx.working).tokens[found.value].(usedAt := Some(now)))
          && tx.working == Spent(old(tx.working), found.value, now)
        else
          r == Err(SpendError(tx.fault, rawToken, found)) && tx.working == old(tx.working)
    {
      var token := TrimSpace(rawToken);
      if token == "" {
        return Err(InvalidToken);
      }
      r := tx.ConsumeAuthToken(purpose, digest(token), now);
    }

    /** The callback of ResetPassword. */
    method SpendOnReset(tx: Transaction, rawToken: string, newHash: string, now: Time) returns (r: Result<(), Error>)
      requires HashesUnique(tx.working.tokens)
      modifies tx`working
      ensures var found := FindSpendable(old(tx.working).tokens, PasswordReset, digest(TrimSpace(rawToken)), now);
        if TrimSpace(rawToken) != "" && found.Some? && !Fails(tx.fault, {ConsumeStep, UpdateStep, RevokeStep, AuditStep}) then
          r == Ok(()) && tx.working == ResetDone(old(tx.working), found.value, newHash, now)
        else
          r == Err(SpendError(tx.fault, rawToken, found))
    {
      var token := ConsumeAuthToken(tx, PasswordReset, rawToken, now);
      if token.Err? {
        return Err(token.error);
      }
      var updated := tx.UpdateUserPassword(token.value.user, newHash, now);
      if !updated {
        return Err(StoreFailure);
      }
      var revoked := tx.RevokeAllForUser(token.value.user, now);
      if !revoked {
        return Err(StoreFailure);
      }
      var audited := tx.RecordAuthEvent(PasswordWasReset(token.value.user));
      return if audited then Ok(()) else Err(StoreFailure);
    }

    /** newHash is the salted hash of newPassword. */
    method ResetPassword(tx: Transaction, rawToken: string, newPassword: Bytes, newHash: string, now: Time)
      returns (r: Result<(), Error>)
      requires HashesUnique(tx.committed.tokens)
      modifies tx
      ensures var found := FindSpendable(old(tx.committed).tokens, PasswordReset, digest(TrimSpace(rawToken)), now);
        if PasswordOk(newPassword) && TrimSpace(rawToken) != "" && found.Some?
          && !Fails(tx.fault, {BeginStep, ConsumeStep, UpdateStep, RevokeStep, AuditStep, CommitStep})
        then r == Ok(()) && tx.committed == ResetDone(old(tx.committed), found.value, newHash, now)
        else
          && tx.committed == old(tx.committed)
          && r == Err(if !PasswordOk(newPassword) then InvalidInput
                      else if tx.fault == Some(BeginStep) then StoreFailure
                      else SpendError(tx.fault, rawToken, found))
      ensures r.Ok? <==>
        && 8 <= |newPassword| <= 4096 && (tx.fault == None)
        && exists id :: NamesLive(old(tx.committed), id, PasswordReset, digest(TrimSpace(rawToken)), rawToken, now)
      ensures r.Ok? ==> forall id :: NamesLive(old(tx.committed), id, PasswordReset, digest(TrimSpace(rawToken)), rawToken, now) ==>
        ResetEffects(old(tx.committed), tx.committed, id, newHash, now)
      ensures r == Err(InvalidInput) <==> !(8 <= |newPassword| <= 4096)
      ensures r == Err(InvalidToken) <==>
        && 8 <= |newPassword| <= 4096 && tx.fault != Some(BeginStep)
        && (TrimSpace(rawToken) == ""
            || (tx.fault != Some(ConsumeStep)
                && !exists id :: NamesLive(old(tx.committed), id, PasswordReset, digest(TrimSpace(rawToken)), rawToken, now)))
      ensures tx.committed == DbAfter(old(tx.committed), ResetTransaction(digest(TrimSpace(rawToken)), newHash, now,
        !PasswordOk(newPassword) || TrimSpace(rawToken) == ""
        || Fails(tx.fault, {BeginStep, ConsumeStep, UpdateStep, RevokeStep, AuditStep, CommitStep})))
    {
      FailsIff(tx.fault);
      LiveIsFound(tx.committed, PasswordReset, digest(TrimSpace(rawToken)), rawToken, now);
      if id :| NamesLive(tx.committed, id, PasswordReset, digest(TrimSpace(rawToken)), rawToken, now) {
        ResetDoneEffects(tx.committed, id, newHash, now);
      }
      if |newPassword| > MAX_PASSWORD_LENGTH || |newPassword| < MIN_PASSWORD_LENGTH {
        return Err(InvalidInput);
      }
      var begun := tx.Begin();
      if !begun {
        return Err(StoreFailure);
      }
      r := SpendOnReset(tx, rawToken, newHash, now);
      if r.Err? {
        tx.Rollback();
        return;
      }
      var committed := tx.Commit();
      if !committed {
        return Err(StoreFailure);
      }
    }

    /** The callback of VerifyEmail. */
    method SpendOnVerification(tx: Transaction, rawToken: string, now: Time) returns (r: Result<(), Error>)
      requires HashesUnique(tx.working.tokens)
      modifies tx`working
      ensures var found := FindSpendable(old(tx.working).tokens, EmailVerification, digest(TrimSpace(rawToken)), now);
        if TrimSpace(rawToken) != "" && found.Some? && !Fails(tx.fault, {ConsumeStep, UpdateStep, AuditStep}) then
          r == Ok(()) && tx.working == VerifyDone(old(tx.working), found.value, now)
        else
          r == Err(SpendError(tx.fault, rawToken, found))
    {
      var token := ConsumeAuthToken(tx, EmailVerification, rawToken, now);
      if token.Err? {
        return Err(token.error);
      }
      var updated := tx.SetEmailVerified(token.value.user, now);
      if !updated {
        return Err(StoreFailure);
      }
      var audited := tx.RecordAuthEvent(EmailVerified(token.value.user));
      return if audited then Ok(()) else Err(StoreFailure);
    }

    method VerifyEmail(tx: Transaction, rawToken: string, now: Time) returns (r: Result<(), Error>)
      requires HashesUnique(tx.committed.tokens)
      modifies tx
      ensures var found := FindSpendable(old(tx.committed).tokens, EmailVerification, digest(TrimSpace(rawToken)), now);
        if TrimSpace(rawToken) != "" && found.Some? && !Fails(tx.fault, {BeginStep, ConsumeStep, UpdateStep, AuditStep, CommitStep})
        then r == Ok(()) && tx.committed == VerifyDone(old(tx.committed), found.value, now)
        else
          && tx.committed == old(tx.committed)
          && r == Err(if tx.fault == Some(BeginStep) then StoreFailure else SpendError(tx.fault, rawToken, found))
      ensures r.Ok? <==>
        && (tx.fault == None || tx.fault == Some(RevokeStep))
        && exists id :: NamesLive(old(tx.committed), id, EmailVerification, digest(TrimSpace(rawToken)), rawToken, now)
      ensures r.Ok? ==> forall id :: NamesLive(old(tx.committed), id, EmailVerification, digest(TrimSpace(rawToken)), rawToken, now) ==>
        VerifyEffects(old(tx.committed), tx.committed, id, now)
      ensures r == Err(InvalidToken) <==>
        && tx.fault != Some(BeginStep)
        && (TrimSpace(rawToken) == ""
            || (tx.fault != Some(ConsumeStep)
                && !exists id :: NamesLive(old(tx.committed), id, EmailVerification, digest(TrimSpace(rawToken)), rawToken, now)))
      ensures tx.committed == DbAfter(old(tx.committed), VerifyTransaction(digest(TrimSpace(rawToken)), now,
        TrimSpace(rawToken) == "" || Fails(tx.fault, {BeginStep, ConsumeStep, UpdateStep, AuditStep, CommitStep})))
    {
      FailsIff(tx.fault);
      LiveIsFound(tx.committed, EmailVerification, digest(TrimSpace(rawToken)), rawToken, now);
      if id :| NamesLive(tx.committed, id, EmailVerification, digest(TrimSpace(rawToken)), rawToken, now) {
        VerifyDoneEffects(tx.committed, id, now);
      }
      var begun := tx.Begin();
      if !begun {
        return Err(StoreFailure);
      }
      r := SpendOnVerification(tx, rawToken, now);
      if r.Err? {
        tx.Rollback();
        return;
      }
      var committed := tx.Commit();
      if !committed {
        return Err(StoreFailure);
      }
    }

    /** Whether the signed-in user may change the password, in the order the checks are made. */
    function ChangeRefusal(db: Db, subject: Option<Id>, currentPassword: Bytes, newPassword: Bytes): Option<Error> {
      if subject.None? then Some(InvalidToken)
      else if |currentPassword| > MAX_PASSWORD_LENGTH || |newPassword| > MAX_PASSWORD_LENGTH then Some(InvalidInput)
      else if |newPassword| < MIN_PASSWORD_LENGTH then Some(InvalidInput)
      else if subject.value !in db.users then Some(InvalidToken)
      else if db.users[subject.value].disabled then Some(UserDisabled)
      else if !matches(currentPassword, db.users[subject.value].passwordHash) then Some(InvalidCredentials)
      else None
    }

    method RefuseChange(tx: Transaction, subject: Option<Id>, currentPassword: Bytes, newPassword: Bytes)
      returns (refusal: Option<Error>)
      ensures refusal == ChangeRefusal(tx.committed, subject, currentPassword, newPassword)
    {
      if subject.None? {
        return Some(InvalidToken);
      }
      if |currentPassword| > MAX_PASSWORD_LENGTH || |newPassword| > MAX_PASSWORD_LENGTH {
        return Some(InvalidInput);
      }
      if |newPassword| < MIN_PASSWORD_LENGTH {
        return Some(InvalidInput);
      }
      if subject.value !in tx.committed.users {
        return Some(InvalidToken);
      }
      var user := tx.committed.users[subject.value];
      if user.disabled {
        return Some(UserDisabled);
      }
      if !matches(currentPassword, user.passwordHash) {
        return Some(InvalidCredentials);
      }
      return None;
    }

    /** A signed-in, enabled user gives the current password and a new one of allowed length. */
    ghost predicate MayChange(db: Db, subject: Option<Id>, currentPassword: Bytes, newPassword: Bytes) {
      && LengthsOk(subject, currentPassword, newPassword) && subject.value in db.users
      && !db.users[subject.value].disabled && matches(currentPassword, db.users[subject.value].passwordHash)
    }

    ghost predicate LengthsOk(subject: Option<Id>, currentPassword: Bytes, newPassword: Bytes) {
      subject.Some? && |currentPassword| <= 4096 && 8 <= |newPassword| <= 4096
    }

    /** What is wrong with a change that the user may not make. */
    ghost predicate RefusedWith(error: Error, db: Db, subject: Option<Id>, currentPassword: Bytes, newPassword: Bytes) {
      match error
      case InvalidToken => subject == None || (LengthsOk(subject, currentPassword, newPassword) && subject.value !in db.users)
      case InvalidInput => subject.Some? && !LengthsOk(subject, currentPassword, newPassword)
      case UserDisabled =>
        LengthsOk(subject, currentPassword, newPassword) && subject.value in db.users && db.users[subject.value].disabled
      case InvalidCredentials =>
        && LengthsOk(subject, currentPassword, newPassword) && subject.value in db.users
        && !db.users[subject.value].disabled && !matches(currentPassword, db.users[subject.value].passwordHash)
      case StoreFailure => false
    }

    /** subject is the verified access token's user, None when the token is no good. */
    method ChangePassword(tx: Transaction, subject: Option<Id>, currentPassword: Bytes, newPassword: Bytes,
                          newHash: string, now: Time)
      returns (r: Result<(), Error>)
      modifies tx
      ensures r.Ok? <==>
        && MayChange(old(tx.committed), subject, currentPassword, newPassword)
        && (tx.fault == None || tx.fault == Some(ConsumeStep))
      ensures r.Ok? ==> ChangeEffects(old(tx.committed), tx.committed, subject.value, newHash, now)
      ensures forall e :: e != StoreFailure ==>
        (r == Err(e) <==> RefusedWith(e, old(tx.committed), subject, currentPassword, newPassword))
      ensures r.Err? ==> tx.committed == old(tx.committed)
      ensures var refusal := ChangeRefusal(old(tx.committed), subject, currentPassword, newPassword);
        if refusal.Some? then r == Err(refusal.value) && tx.committed == old(tx.committed)
        else if Fails(tx.fault, {BeginStep, UpdateStep, RevokeStep, AuditStep, CommitStep}) then
          r == Err(StoreFailure) && tx.committed == old(tx.committed)
        else
          && r == Ok(()) && tx.committed == ChangeDone(old(tx.committed), subject.value, newHash, now)
          && tx.committed == DbAfter(old(tx.committed), ChangeTransaction(subject.value, newHash, now, false))
    {
      FailsIff(tx.fault);
      var refusal := RefuseChange(tx, subject, currentPassword, newPassword);
      if refusal.Some? {
        return Err(refusal.value);
      }
      var begun := tx.Begin();
      if !begun {
        return Err(StoreFailure);
      }
      var ok := tx.UpdateUserPassword(subject.value, newHash, now);
      if ok {
        ok := tx.RevokeAllForUser(subject.value, now);
      }
      if ok {
        ok := tx.RecordAuthEvent(PasswordChanged(subject.value));
      }
      if !ok {
        tx.Rollback();
        return Err(StoreFailure);
      }
      var committed := tx.Commit();
      return if committed then Ok(()) else Err(StoreFailure);
    }
  }

  // ----- Without a unit of work -----

  /** The steps before the one that fails are committed; a failure to record the event goes unreported. */
  function DirectReset(db: Db, id: Id, passwordHash: string, now: Time, fault: Fault): Db
    requires id in db.tokens
  {
    var user := db.tokens[id].user;
    var spent := Spent(db, id, now);
    var updated := if Fails(fault, {UpdateStep}) then spent else PasswordSet(spent, user, passwordHash, now);
    var revoked := if Fails(fault, {UpdateStep, RevokeStep}) then updated else SessionsRevoked(updated, user, now);
    if Fails(fault, {UpdateStep, RevokeStep, AuditStep}) then revoked else Recorded(revoked, PasswordWasReset(user))
  }

  function DirectVerification(db: Db, id: Id, now: Time, fault: Fault): Db
    requires id in db.tokens
  {
    var user := db.tokens[id].user;
    var spent := Spent(db, id, now);
    var updated := if Fails(fault, {UpdateStep}) then spent else VerifiedSet(spent, user, now);
    if Fails(fault, {UpdateStep, AuditStep}) then updated else Recorded(updated, EmailVerified(user))
  }

  function DirectChange(db: Db, user: Id, passwordHash: string, now: Time, fault: Fault): Db {
    var updated := if Fails(fault, {UpdateStep}) then db else PasswordSet(db, user, passwordHash, now);
    var revoked := if Fails(fault, {UpdateStep, RevokeStep}) then updated else SessionsRevoked(updated, user, now);
    if Fails(fault, {UpdateStep, RevokeStep, AuditStep}) then revoked else Recorded(revoked, PasswordChanged(user))
  }

  lemma PasswordSetReplaces(db: Db, user: Id, passwordHash: string, now: Time)
    ensures PasswordReplaced(db, PasswordSet(db, user, passwordHash, now), user, passwordHash, now)
  {
  }

  lemma SessionsRevokedEnds(db: Db, user: Id, now: Time)
    ensures SessionsEnded(db, SessionsRevoked(db, user, now), user)
  {
  }

  /** What a reset that spent its token leaves, table by table: the password is replaced unless storing it
      failed, the sessions are ended unless that or the revocation failed, and the event is recorded only if
      nothing did. */
  lemma DirectResetEffects(db: Db, id: Id, passwordHash: string, now: Time, fault: Fault)
    requires id in db.tokens
    ensures var after, user := DirectReset(db, id, passwordHash, now, fault), db.tokens[id].user;
      && after.tokens == db.tokens[id := db.tokens[id].(usedAt := Some(now))]
      && (if fault == Some(UpdateStep) then after.users == db.users else PasswordReplaced(db, after, user, passwordHash, now))
      && (if fault == Some(UpdateStep) || fault == Some(RevokeStep) then after.sessions == db.sessions
          else SessionsEnded(db, after, user))
      && after.audit ==
           if fault == Some(UpdateStep) || fault == Some(RevokeStep) || fault == Some(AuditStep) then db.audit
           else db.audit + [PasswordWasReset(user)]
  {
    PasswordSetReplaces(Spent(db, id, now), db.tokens[id].user, passwordHash, now);
    SessionsRevokedEnds(PasswordSet(Spent(db, id, now), db.tokens[id].user, passwordHash, now), db.tokens[id].user, now);
  }

  lemma DirectVerificationEffects(db: Db, id: Id, now: Time, fault: Fault)
    requires id in db.tokens
    ensures var after, user := DirectVerification(db, id, now, fault), db.tokens[id].user;
      && after.tokens == db.tokens[id := db.tokens[id].(usedAt := Some(now))] && after.sessions == db.sessions
      && (fault != Some(UpdateStep) && user in db.users ==>
           after.users == db.users[user := db.users[user].(verifiedAt := Some(now), updatedAt := now)])
      && (fault == Some(UpdateStep) || user !in db.users ==> after.users == db.users)
      && after.audit ==
           if fault == Some(UpdateStep) || fault == Some(AuditStep) then db.audit else db.audit + [EmailVerified(user)]
  {
  }

  lemma DirectChangeEffects(db: Db, user: Id, passwordHash: string, now: Time, fault: Fault)
    ensures var after := DirectChange(db, user, passwordHash, now, fault);
      && after.tokens == db.tokens
      && (if fault == Some(UpdateStep) then after.users == db.users else PasswordReplaced(db, after, user, passwordHash, now))
      && (if fault == Some(UpdateStep) || fault == Some(RevokeStep) then after.sessions == db.sessions
          else SessionsEnded(db, after, user))
      && after.audit ==
           if fault == Some(UpdateStep) || fault == Some(RevokeStep) || fault == Some(AuditStep) then db.audit
           else db.audit + [PasswordChanged(user)]
  {
    var updated := PasswordSet(db, user, passwordHash, now);
    PasswordSetReplaces(db, user, passwordHash, now);
    SessionsRevokedEnds(updated, user, now);
    assert updated.sessions == db.sessions && updated.tokens == db.tokens && updated.audit == db.audit;
  }

  /** So once its token is spent the reset is whole exactly when none of the later steps fails, and when the
      password cannot be stored the token is lost all the same. */
  lemma DirectResetIsWholeIff(db: Db, id: Id, passwordHash: string, now: Time, fault: Fault)
    requires id in db.tokens
    ensures ResetEffects(db, DirectReset(db, id, passwordHash, now, fault), id, passwordHash, now) <==>
      fault != Some(UpdateStep) && fault != Some(RevokeStep) && fault != Some(AuditStep)
    ensures DirectReset(db, id, passwordHash, now, fault).tokens[id].usedAt == Some(now)
    ensures fault == Some(UpdateStep) ==> DirectReset(db, id, passwordHash, now, fault).users == db.users
  {
    ResetDoneEffects(db, id, passwordHash, now);
    DirectResetEffects(db, id, passwordHash, now, fault);
    var user := db.tokens[id].user;
    assert |db.audit| != |db.audit + [PasswordWasReset(user)]|;
  }

  /** The service when it was not given a unit of work: the statements run on the store one by one. */
  class DirectService {
    const service: Service

    constructor (service: Service)
      ensures this.service == service
    {
      this.service := service;
    }

    method ResetPassword(tx: Transaction, rawToken: string, newPassword: Bytes, newHash: string, now: Time)
      returns (r: Result<(), Error>)
      requires HashesUnique(tx.committed.tokens) && tx.working == tx.committed
      modifies tx
      ensures r.Ok? <==>
        && 8 <= |newPassword| <= 4096
        && tx.fault != Some(ConsumeStep) && tx.fault != Some(UpdateStep) && tx.fault != Some(RevokeStep)
        && exists id :: NamesLive(old(tx.committed), id, PasswordReset, service.digest(TrimSpace(rawToken)), rawToken, now)
      ensures var found := FindSpendable(old(tx.committed).tokens, PasswordReset, service.digest(TrimSpace(rawToken)), now);
        if !service.PasswordOk(newPassword) then r == Err(InvalidInput) && tx.committed == old(tx.committed)
        else if TrimSpace(rawToken) == "" || found.None? || Fails(tx.fault, {ConsumeStep}) then
          r == Err(service.SpendError(tx.fault, rawToken, found)) && tx.committed == old(tx.committed)
        else
          && r == (if Fails(tx.fault, {UpdateStep, RevokeStep}) then Err(StoreFailure) else Ok(()))
          && tx.committed == DirectReset(old(tx.committed), found.value, newHash, now, tx.fault)
    {
      if |newPassword| > MAX_PASSWORD_LENGTH || |newPassword| < MIN_PASSWORD_LENGTH {
        return Err(InvalidInput);
      }
      LiveIsFound(tx.committed, PasswordReset, service.digest(TrimSpace(rawToken)), rawToken, now);
      var token := service.ConsumeAuthToken(tx, PasswordReset, rawToken, now);
      tx.AutoCommit();
      if token.Err? {
        return Err(token.error);
      }
      var updated := tx.UpdateUserPassword(token.value.user, newHash, now);
      tx.AutoCommit();
      if !updated {
        return Err(StoreFailure);
      }
      var revoked := tx.RevokeAllForUser(token.value.user, now);
      tx.AutoCommit();
      if !revoked {
        return Err(StoreFailure);
      }
      var _ := tx.RecordAuthEvent(PasswordWasReset(token.value.user));
      tx.AutoCommit();
      return Ok(());
    }

    method VerifyEmail(tx: Transaction, rawToken: string, now: Time) returns (r: Result<(), Error>)
      requires HashesUnique(tx.committed.tokens) && tx.working == tx.committed
      modifies tx
      ensures r.Ok? <==>
        && tx.fault != Some(ConsumeStep) && tx.fault != Some(UpdateStep)
        && exists id :: NamesLive(old(tx.committed), id, EmailVerification, service.digest(TrimSpace(rawToken)), rawToken, now)
      ensures var found := FindSpendable(old(tx.committed).tokens, EmailVerification, service.digest(TrimSpace(rawToken)), now);
        if TrimSpace(rawToken) == "" || found.None? || Fails(tx.fault, {ConsumeStep}) then
          r == Err(service.SpendError(tx.fault, rawToken, found)) && tx.committed == old(tx.committed)
        else
          && r == (if Fails(tx.fault, {UpdateStep}) then Err(StoreFailure) else Ok(()))
          && tx.committed == DirectVerification(old(tx.committed), found.value, now, tx.fault)
    {
      LiveIsFound(tx.committed, EmailVerification, service.digest(TrimSpace(rawToken)), rawToken, now);
      var token := service.ConsumeAuthToken(tx, EmailVerification, rawToken, now);
      tx.AutoCommit();
      if token.Err? {
        return Err(token.error);
      }
      var updated := tx.SetEmailVerified(token.value.user, now);
      tx.AutoCommit();
      if !updated {
        return Err(StoreFailure);
      }
      var _ := tx.RecordAuthEvent(EmailVerified(token.value.user));
      tx.AutoCommit();
      return Ok(());
    }

    method ChangePassword(tx: Transaction, subject: Option<Id>, currentPassword: Bytes, newPassword: Bytes,
                          newHash: string, now: Time)
      returns (r: Result<(), Error>)
      requires tx.working == tx.committed
      modifies tx
      ensures r.Ok? <==>
        && service.MayChange(old(tx.committed), subject, currentPassword, newPassword)
        && tx.fault != Some(UpdateStep) && tx.fault != Some(RevokeStep)
      ensures var refusal := service.ChangeRefusal(old(tx.committed), subject, currentPassword, newPassword);
        if refusal.Some? then r == Err(refusal.value) && tx.committed == old(tx.committed)
        else
          && r == (if Fails(tx.fault, {UpdateStep, RevokeStep}) then Err(StoreFailure) else Ok(()))
          && tx.committed == DirectChange(old(tx.committed), subject.value, newHash, now, tx.fault)
    {
      var refusal := service.RefuseChange(tx, subject, currentPassword, newPassword);
      if refusal.Some? {
        return Err(refusal.value);
      }
      var updated := tx.UpdateUserPassword(subject.value, newHash, now);
      tx.AutoCommit();
      if !updated {
        return Err(StoreFailure);
      }
      var revoked := tx.RevokeAllForUser(subject.value, now);
      tx.AutoCommit();
      if !revoked {
        return Err(StoreFailure);
      }
      var _ := tx.RecordAuthEvent(PasswordChanged(subject.value));
      tx.AutoCommit();
      return Ok(());
    }
  }

  // ----- Issuing -----

  lemma StaleArePurged(db: Db, dbNow: Time, stale: set<Id>)
    requires stale == set id | id in db.tokens && (db.tokens[id].usedAt.Some? || db.tokens[id].expiresAt < dbNow)
    ensures db.tokens - stale == Purged(db, dbNow).tokens && |db.tokens - stale| == |db.tokens| - |stale|
  {
    assert stale <= db.tokens.Keys;
    assert |db.tokens.Keys - stale| == |db.tokens.Keys| - |stale|;
    assert (db.tokens - stale).Keys == db.tokens.Keys - stale;
  }

  /** The auth_tokens table outside a transaction: each statement commits by itself. */
  class AuthTokenStore {
    var db: Db

    constructor (db: Db)
      ensures this.db == db
    {
      this.db := db;
    }

    method DeleteAuthTokensForUser(user: Id, purpose: Purpose, fails: bool)
      modifies this
      ensures db == if fails then old(db) else DeleteForUser(old(db), user, purpose)
    {
      if !fails {
        db := DeleteForUser(db, user, purpose);
      }
    }

    method CreateAuthToken(id: Id, token: AuthToken, fails: bool) returns (ok: bool)
      requires id !in db.tokens
      modifies this
      ensures ok <==> !fails
      ensures db == if fails then old(db) else Created(old(db), id, token)
    {
      if !fails {
        db := Created(db, id, token);
      }
      ok := !fails;
    }

    /** Issue a token that replaces the user's earlier ones. A failed delete is ignored, so the earlier
        ones then stay; a failed insert leaves the user with none. */
    method IssueAuthToken(user: Id, purpose: Purpose, id: Id, hash: Hash, now: Time, deleteFails: bool, createFails: bool)
      returns (ok: bool)
      requires id !in db.tokens
      modifies this
      ensures ok <==> !createFails
      ensures ok ==> id in db.tokens && db.tokens[id] == AuthToken(user, purpose, hash,
        now + (if purpose == PasswordReset then 3_600_000_000_000 else 86_400_000_000_000), None, now)
      ensures !ok ==> id !in db.tokens
      ensures forall other :: other != id ==>
        (other in db.tokens <==>
          && other in old(db).tokens
          && (deleteFails || old(db).tokens[other].user != user || old(db).tokens[other].purpose != purpose))
      ensures forall other :: other != id && other in db.tokens ==> db.tokens[other] == old(db).tokens[other]
      ensures db.users == old(db).users && db.sessions == old(db).sessions && db.audit == old(db).audit
      ensures var deleted := if deleteFails then old(db) else DeleteForUser(old(db), user, purpose);
        var ttl := if purpose == PasswordReset then PASSWORD_RESET_TTL else EMAIL_VERIFICATION_TTL;
        db == if ok then Created(deleted, id, AuthToken(user, purpose, hash, now + ttl, None, now)) else deleted
    {
      DeleteAuthTokensForUser(user, purpose, deleteFails);
      var ttl := if purpose == PasswordReset then PASSWORD_RESET_TTL else EMAIL_VERIFICATION_TTL;
      ok := CreateAuthToken(id, AuthToken(user, purpose, hash, now + ttl, None, now), createFails);
    }

    /** ForgotPassword: the same answer whether or not the email belongs to an account. */
    method ForgotPassword(user: Option<Id>, id: Id, hash: Hash, now: Time, deleteFails: bool, createFails: bool)
      returns (ok: bool)
      requires id !in db.tokens && (user.Some? ==> user.value in db.users)
      modifies this
      ensures (user.None? || old(db).users[user.value].disabled) ==> ok && db == old(db)
      ensures user.Some? && !old(db).users[user.value].disabled && !deleteFails && !createFails ==>
        && ok
        && db == Created(DeleteForUser(old(db), user.value, PasswordReset), id,
                         AuthToken(user.value, PasswordReset, hash, now + PASSWORD_RESET_TTL, None, now))
    {
      if user.None? {
        return true;
      }
      if db.users[user.value].disabled {
        return true;
      }
      ok := IssueAuthToken(user.value, PasswordReset, id, hash, now, deleteFails, createFails);
    }

    method PurgeConsumedOrExpired(dbNow: Time) returns (purged: nat)
      modifies this
      ensures db == Purged(old(db), dbNow)
      ensures forall id :: id in db.tokens <==>
        id in old(db).tokens && old(db).tokens[id].usedAt == None && old(db).tokens[id].expiresAt >= dbNow
      ensures db == old(db).(tokens := db.tokens) && forall id :: id in db.tokens ==> db.tokens[id] == old(db).tokens[id]
      ensures purged == |old(db).tokens| - |db.tokens|
    {
      var stale := set id | id in db.tokens && (db.tokens[id].usedAt.Some? || db.tokens[id].expiresAt < dbNow);
      StaleArePurged(db, dbNow, stale);
      purged := |stale|;
      db := db.(tokens := db.tokens - stale);
    }
  }

  /** What is issued can be spent, for its purpose and until it expires, and nothing else under its hash. */
  lemma IssuedTokenIsSpendable(db: Db, id: Id, token: AuthToken, purpose: Purpose, now: Time)
    requires HashesUnique(db.tokens) && id !in db.tokens && token.usedAt == None
    requires forall other :: other in db.tokens ==> db.tokens[other].hash != token.hash
    ensures FindSpendable(Created(db, id, token).tokens, purpose, token.hash, now) ==
      if purpose == token.purpose && now < token.expiresAt then Some(id) else None
  {
    var issued := Created(db, id, token);
    if purpose == token.purpose && now < token.expiresAt {
      assert issued.tokens[id] == token;
      SpendableIsFound(issued.tokens, purpose, token.hash, now, id);
    }
  }

  /** Whatever is presented after a purge is accepted or refused as it would have been without it. */
  lemma PurgeIsInvisible(db: Db, dbNow: Time, purpose: Purpose, hash: Hash, now: Time)
    requires HashesUnique(db.tokens) && dbNow <= now
    ensures FindSpendable(Purged(db, dbNow).tokens, purpose, hash, now) == FindSpendable(db.tokens, purpose, hash, now)
  {
    var kept := Purged(db, dbNow).tokens;
    if id :| id in db.tokens && Spendable(db.tokens[id], purpose, hash, now) {
      SpendableIsFound(db.tokens, purpose, hash, now, id);
      SpendableIsFound(kept, purpose, hash, now, id);
    }
  }

  /** An earlier token of the user and purpose stops working when a new one is issued exactly when the
      delete went through, or it did not work anyway. */
  lemma EarlierTokenStopsIff(db: Db, user: Id, purpose: Purpose, id: Id, token: AuthToken, deleteFails: bool, earlier: Id, now: Time)
    requires HashesUnique(db.tokens) && id !in db.tokens && earlier in db.tokens
    requires forall other :: other in db.tokens ==> db.tokens[other].hash != token.hash
    requires db.tokens[earlier].user == user && db.tokens[earlier].purpose == purpose
    ensures var deleted := if deleteFails then db else DeleteForUser(db, user, purpose);
      FindSpendable(Created(deleted, id, token).tokens, purpose, db.tokens[earlier].hash, now).None? <==>
        !deleteFails || db.tokens[earlier].usedAt.Some? || db.tokens[earlier].expiresAt <= now
  {
    var deleted := if deleteFails then db else DeleteForUser(db, user, purpose);
    var next := Created(deleted, id, token);
    if deleteFails && Spendable(db.tokens[earlier], purpose, db.tokens[earlier].hash, now) {
      assert HashesUnique(next.tokens);
      SpendableIsFound(next.tokens, purpose, db.tokens[earlier].hash, now, earlier);
    }
  }
}
