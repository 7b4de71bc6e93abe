/** The second-factor store as tables updated in place, and the service calls Setup, Confirm, Verify and
    Disable. */
module MfaService {
  import opened Mfa
  import opened Sequences
  import opened Text
  import opened Wrappers

  class MfaStore {
    var enabled: map<Id, bool>
    var secrets: map<Id, Secret>
    var codes: map<Id, Code>

    constructor ()
      ensures Snapshot() == Store(map[], map[], map[])
    {
      enabled, secrets, codes := map[], map[], map[];
    }

    function Snapshot(): Store
      reads this
    {
      Store(enabled, secrets, codes)
    }

    method GetMfaSecret(user: Id) returns (secret: Option<Secret>)
      ensures secret == if user in secrets then Some(secrets[user]) else None
    {
      return if user in secrets then Some(secrets[user]) else None;
    }

    method StoreSetupSecret(user: Id, secret: Secret) returns (error: Option<Error>)
      modifies this`secrets
      ensures match Mfa.StoreSetupSecret(old(Snapshot()), user, secret)
        case Ok(store) => error == None && Snapshot() == store
        case Err(e) => error == Some(e) && Snapshot() == old(Snapshot())
    {
      if user !in enabled {
        return Some(UserNotFound);
      }
      if enabled[user] {
        return Some(AlreadyEnabled);
      }
      secrets := secrets[user := secret];
      return None;
    }

    /** ids are the freshly generated row ids. */
    method CompleteEnrollment(user: Id, ids: seq<Id>, hashes: seq<Hash>) returns (error: Option<Error>)
      requires |ids| == |hashes| && Distinct(ids)
      modifies this`codes, this`enabled
      ensures match Mfa.CompleteEnrollment(old(Snapshot()), user, ids, hashes)
        case Ok(store) => error == None && Snapshot() == store
        case Err(e) => error == Some(e) && Snapshot() == old(Snapshot())
    {
      if user !in enabled {
        return Some(UserNotFound);
      }
      if enabled[user] {
        return Some(AlreadyEnabled);
      }
      codes := codes - Snapshot().Codes(user);
      ghost var cleared := codes;
      for i := 0 to |hashes|
        invariant codes == cleared + NewCodes(user, ids[..i], hashes[..i])
        invariant enabled == old(enabled) && secrets == old(secrets)
      {
        codes := codes[ids[i] := Code(user, hashes[i], None)];
        assert ids[..i + 1][..i] == ids[..i] && hashes[..i + 1][..i] == hashes[..i];
      }
      assert ids[..|ids|] == ids && hashes[..|hashes|] == hashes;
      enabled := enabled[user := true];
      return None;
    }

    method ConsumeRecoveryCode(user: Id, hash: Hash, now: Time) returns (consumed: bool)
      modifies this`codes
      ensures Snapshot() == Mfa.ConsumeRecoveryCode(old(Snapshot()), user, hash, now)
      ensures consumed <==> Matching(old(Snapshot()), user, hash) != {}
    {
      var hit := Matching(Snapshot(), user, hash);
      codes := Mfa.ConsumeRecoveryCode(Snapshot(), user, hash, now).codes;
      return hit != {};
    }

    method DisableMfa(user: Id) returns (error: Option<Error>)
      modifies this
      ensures match Mfa.DisableMfa(old(Snapshot()), user)
        case Ok(store) => error == None && Snapshot() == store
        case Err(e) => error == Some(e) && Snapshot() == old(Snapshot())
    {
      if user !in enabled {
        return Some(UserNotFound);
      }
      secrets := secrets - {user};
      codes := codes - Snapshot().Codes(user);
      enabled := enabled[user := false];
      return None;
    }
  }

  /** The one-time-password check and the recovery-code hash, which are left abstract. */
  datatype Crypto = Crypto(totp: (Secret, string, Time) -> bool, hash: string -> Hash)

  // ----- The calls as single steps -----

  datatype Confirmed = Confirmed(store: Store, codes: Result<seq<string>, Error>)

  function Hashes(crypto: Crypto, raw: seq<string>): (hashes: seq<Hash>)
    ensures |hashes| == |raw| && forall i :: 0 <= i < |raw| ==> hashes[i] == crypto.hash(raw[i])
  {
    if raw == [] then [] else Hashes(crypto, raw[..|raw| - 1]) + [crypto.hash(raw[|raw| - 1])]
  }

  function ConfirmStep(crypto: Crypto, s: Store, user: Id, code: string, at: Time, ids: seq<Id>, raw: seq<string>): Confirmed
    requires |ids| == |raw|
  {
    if user !in s.secrets then Confirmed(s, Err(NotEnrolling))
    else if !crypto.totp(s.secrets[user], TrimSpace(code), at) then Confirmed(s, Err(InvalidCode))
    else match CompleteEnrollment(s, user, ids, Hashes(crypto, raw))
      case Err(e) => Confirmed(s, Err(e))
      case Ok(store) => Confirmed(store, Ok(raw))
  }

  /** The factor is on with exactly these codes, all unused, and the secret and everybody else's factor are
      as they were. */
  ghost predicate Enrolled(before: Store, after: Store, crypto: Crypto, user: Id, ids: seq<Id>, raw: seq<string>)
    requires |ids| == |raw|
  {
    && after.enabled == before.enabled[user := true] && after.secrets == before.secrets
    && (forall id :: id in after.codes <==> id in ids || (id in before.codes && before.codes[id].user != user))
    && (forall i :: 0 <= i < |ids| ==> after.codes[ids[i]] == Code(user, crypto.hash(raw[i]), None))
    && (forall id :: id in after.codes && id !in ids ==> after.codes[id] == before.codes[id])
  }

  lemma EnrollmentIs(s: Store, crypto: Crypto, user: Id, ids: seq<Id>, raw: seq<string>)
    requires |ids| == |raw| && Distinct(ids) && CompleteEnrollment(s, user, ids, Hashes(crypto, raw)).Ok?
    ensures Enrolled(s, CompleteEnrollment(s, user, ids, Hashes(crypto, raw)).value, crypto, user, ids, raw)
  {
    NewCodesAre(user, ids, Hashes(crypto, raw));
    var after := CompleteEnrollment(s, user, ids, Hashes(crypto, raw)).value;
    assert forall id :: id in ids <==> id in Members(ids);
    assert forall i :: 0 <= i < |ids| ==> ids[i] in NewCodes(user, ids, Hashes(crypto, raw));
  }

  /** Confirming goes through exactly for a user who has set a secret up, gives its one-time password and
      has the factor off; then exactly the returned codes work, and otherwise nothing changes. */
  lemma ConfirmOutcome(crypto: Crypto, s: Store, user: Id, code: string, at: Time, ids: seq<Id>, raw: seq<string>)
    requires |ids| == |raw| && Distinct(ids)
    ensures var c := ConfirmStep(crypto, s, user, code, at, ids, raw);
      var proven := user in s.secrets && crypto.totp(s.secrets[user], TrimSpace(code), at);
      && (c.codes == Err(NotEnrolling) <==> user !in s.secrets)
      && (c.codes == Err(InvalidCode) <==> user in s.secrets && !proven)
      && (c.codes == Err(UserNotFound) <==> proven && user !in s.enabled)
      && (c.codes == Err(AlreadyEnabled) <==> proven && user in s.enabled && s.enabled[user])
      && (c.codes.Ok? ==> c.codes.value == raw && Enrolled(s, c.store, crypto, user, ids, raw))
      && (c.codes.Err? ==> c.store == s)
  {
    if CompleteEnrollment(s, user, ids, Hashes(crypto, raw)).Ok? {
      EnrollmentIs(s, crypto, user, ids, raw);
    }
  }

  datatype Verified = Verified(store: Store, valid: bool)

  function VerifyStep(crypto: Crypto, s: Store, user: Id, code: string, at: Time): Verified {
    var trimmed := TrimSpace(code);
    if trimmed == "" || user !in s.secrets then Verified(s, false)
    else if crypto.totp(s.secrets[user], trimmed, at) then Verified(s, true)
    else Verified(ConsumeRecoveryCode(s, user, crypto.hash(trimmed), at), Matching(s, user, crypto.hash(trimmed)) != {})
  }

  lemma InvalidCodeChangesNothing(crypto: Crypto, s: Store, user: Id, code: string, at: Time)
    requires !VerifyStep(crypto, s, user, code, at).valid
    ensures VerifyStep(crypto, s, user, code, at).store == s
  {
    var after := ConsumeRecoveryCode(s, user, crypto.hash(TrimSpace(code)), at);
    assert Matching(s, user, crypto.hash(TrimSpace(code))) == {} ==> after.codes == s.codes;
  }

  // ----- With each call one step, the secret in force is the confirmed one -----

  datatype Request =
    | NewUser(user: Id)
    | SetupCall(user: Id, secret: Secret)
    | ConfirmCall(user: Id, code: string, at: Time, ids: seq<Id>, raw: seq<string>)
    | VerifyCall(user: Id, code: string, at: Time)
    | DisableCall(user: Id, code: string, at: Time)

  /** A code the user gave for a secret, and when. */
  datatype Proof = Proof(secret: Secret, code: string, at: Time)

  /** proofs is what each user's last successful Confirm was given. */
  datatype World = World(store: Store, proofs: map<Id, Proof>)

  function DisableStep(crypto: Crypto, s: Store, user: Id, code: string, at: Time): Store {
    var v := VerifyStep(crypto, s, user, code, at);
    if !v.valid then v.store
    else match DisableMfa(v.store, user) case Ok(store) => store case Err(_) => v.store
  }

  function Serve(crypto: Crypto, w: World, r: Request): World
    requires r.ConfirmCall? ==> |r.ids| == |r.raw|
  {
    match r
    case NewUser(user) =>
      if user in w.store.enabled then w else w.(store := w.store.(enabled := w.store.enabled[user := false]))
    case SetupCall(user, secret) =>
      (match StoreSetupSecret(w.store, user, secret) case Ok(store) => w.(store := store) case Err(_) => w)
    case ConfirmCall(user, code, at, ids, raw) =>
      var c := ConfirmStep(crypto, w.store, user, code, at, ids, raw);
      if c.codes.Ok? then World(c.store, w.proofs[user := Proof(w.store.secrets[user], code, at)]) else w.(store := c.store)
    case VerifyCall(user, code, at) => w.(store := VerifyStep(crypto, w.store, user, code, at).store)
    case DisableCall(user, code, at) => w.(store := DisableStep(crypto, w.store, user, code, at))
  }

  function ServeAll(crypto: Crypto, w: World, rs: seq<Request>): World
    requires forall r :: r in rs && r.ConfirmCall? ==> |r.ids| == |r.raw|
    decreases |rs|
  {
    if rs == [] then w else ServeAll(crypto, Serve(crypto, w, rs[0]), rs[1..])
  }

  ghost predicate SecretsConfirmed(crypto: Crypto, w: World) {
    forall user :: w.store.On(user) ==> SecretConfirmed(crypto, w, user)
  }

  ghost predicate SecretConfirmed(crypto: Crypto, w: World, user: Id) {
    && user in w.store.secrets && user in w.proofs
    && var proof := w.proofs[user];
       w.store.secrets[user] == proof.secret && crypto.totp(proof.secret, TrimSpace(proof.code), proof.at)
  }

  lemma RequestKeepsConfirmed(crypto: Crypto, w: World, r: Request)
    requires SecretsConfirmed(crypto, w) && (r.ConfirmCall? ==> |r.ids| == |r.raw|)
    ensures SecretsConfirmed(crypto, Serve(crypto, w, r))
  {
    var after := Serve(crypto, w, r);
    if r.DisableCall? || r.VerifyCall? {
      CodesOnly(crypto, w.store, r.user, r.code, r.at);
    }
    forall user | after.store.On(user) ensures SecretConfirmed(crypto, after, user) {
      assert w.store.On(user) ==> SecretConfirmed(crypto, w, user);
      if r.ConfirmCall? && user == r.user && !w.store.On(user) {
        assert after.proofs[user] == Proof(w.store.secrets[user], r.code, r.at);
      }
    }
  }

  /** Verifying touches neither the flag nor the secret; disabling either does the same or switches off. */
  lemma CodesOnly(crypto: Crypto, s: Store, user: Id, code: string, at: Time)
    ensures VerifyStep(crypto, s, user, code, at).store.enabled == s.enabled
    ensures VerifyStep(crypto, s, user, code, at).store.secrets == s.secrets
    ensures var after := DisableStep(crypto, s, user, code, at);
      || (after.enabled == s.enabled && after.secrets == s.secrets)
      || (!after.On(user) && forall other :: other != user ==>
           && (after.On(other) <==> s.On(other)) && (other in after.secrets <==> other in s.secrets)
           && (other in s.secrets ==> after.secrets[other] == s.secrets[other]))
  {
  }

  /** While the factor is on, the stored secret is one the user gave a valid code for. */
  lemma {:induction false} EnabledSecretIsConfirmed(crypto: Crypto, w: World, rs: seq<Request>)
    requires SecretsConfirmed(crypto, w) && forall r :: r in rs && r.ConfirmCall? ==> |r.ids| == |r.raw|
    ensures SecretsConfirmed(crypto, ServeAll(crypto, w, rs))
    decreases |rs|
  {
    if rs != [] {
      assert rs[0] in rs;
      RequestKeepsConfirmed(crypto, w, rs[0]);
      EnabledSecretIsConfirmed(crypto, Serve(crypto, w, rs[0]), rs[1..]);
    }
  }

  /** A new user sets a secret up and gives a code. */
  function Enrolment(user: Id, secret: Secret, code: string, at: Time, ids: seq<Id>, raw: seq<string>): (rs: seq<Request>)
    ensures |ids| == |raw| ==> forall r :: r in rs && r.ConfirmCall? ==> |r.ids| == |r.raw|
  {
    [NewUser(user), SetupCall(user, secret), ConfirmCall(user, code, at, ids, raw)]
  }

  lemma SetupServed(crypto: Crypto, w: World, user: Id, secret: Secret)
    requires user !in w.store.enabled
    ensures Serve(crypto, Serve(crypto, w, NewUser(user)), SetupCall(user, secret)) ==
      World(Store(w.store.enabled[user := false], w.store.secrets[user := secret], w.store.codes), w.proofs)
  {
  }

  /** If the code is the secret's one-time password, the factor ends up on, with that secret and exactly the
      codes generated, and nobody else's factor changes; if not, it stays off. */
  lemma EnrolmentWorksIff(crypto: Crypto, w: World, user: Id, secret: Secret, code: string, at: Time, ids: seq<Id>, raw: seq<string>)
    requires |ids| == |raw| && Distinct(ids) && user !in w.store.enabled
    ensures var t := ServeAll(crypto, w, Enrolment(user, secret, code, at, ids, raw));
      var before := w.store.(secrets := w.store.secrets[user := secret]);
      if crypto.totp(secret, TrimSpace(code), at) then
        Enrolled(before, t.store, crypto, user, ids, raw) && t.proofs == w.proofs[user := Proof(secret, code, at)]
      else t == World(before.(enabled := before.enabled[user := false]), w.proofs)
  {
    var rs := Enrolment(user, secret, code, at, ids, raw);
    SetupServed(crypto, w, user, secret);
    var w2 := Serve(crypto, Serve(crypto, w, rs[0]), rs[1]);
    assert rs[1..][1..] == [rs[2]] && [rs[2]][1..] == [];
    assert ServeAll(crypto, w, rs) == ServeAll(crypto, w2, [rs[2]]) == Serve(crypto, w2, rs[2]);
    ConfirmOutcome(crypto, w2.store, user, code, at, ids, raw);
    EnrolledTwice(w2.store, w.store.(secrets := w.store.secrets[user := secret]), Serve(crypto, w2, rs[2]).store, crypto, user, ids, raw);
  }

  lemma EnrolledTwice(a: Store, b: Store, after: Store, crypto: Crypto, user: Id, ids: seq<Id>, raw: seq<string>)
    requires |ids| == |raw| && a == b.(enabled := b.enabled[user := false])
    ensures Enrolled(a, after, crypto, user, ids, raw) <==> Enrolled(b, after, crypto, user, ids, raw)
  {
    assert a.enabled[user := true] == b.enabled[user := true];
  }

  // ----- A recovery code, from its enrolment on -----

  /** New rows get fresh ids. */
  ghost predicate FreshIds(store: Store, r: Request) {
    r.ConfirmCall? ==>
      && |r.ids| == |r.raw| && Distinct(r.ids) && (forall i :: 0 <= i < |r.ids| ==> r.ids[i] !in store.codes)
  }

  /** The requests are served one after the other, and the user's factor is on before and after each. */
  ghost predicate StaysOn(crypto: Crypto, w: World, rs: seq<Request>, user: Id)
    decreases |rs|
  {
    w.store.On(user) && (rs == [] || (FreshIds(w.store, rs[0]) && StaysOn(crypto, Serve(crypto, w, rs[0]), rs[1..], user)))
  }

  /** The request presents a code with this hash for the user, and it is not the one-time password. */
  predicate Presents(crypto: Crypto, store: Store, r: Request, user: Id, hash: Hash) {
    && (r.VerifyCall? || r.DisableCall?) && r.user == user
    && var code := TrimSpace(r.code);
       code != "" && user in store.secrets && !crypto.totp(store.secrets[user], code, r.at) && crypto.hash(code) == hash
  }

  ghost predicate NeverPresented(crypto: Crypto, w: World, rs: seq<Request>, user: Id, hash: Hash)
    requires StaysOn(crypto, w, rs, user)
    decreases |rs|
  {
    rs == [] || (!Presents(crypto, w.store, rs[0], user, hash)
                 && NeverPresented(crypto, Serve(crypto, w, rs[0]), rs[1..], user, hash))
  }

  /** Another user's enrolment leaves this user's rows alone. */
  lemma OtherEnrolmentKeepsRows(s: Store, other: Id, ids: seq<Id>, hashes: seq<Hash>, user: Id, hash: Hash)
    requires |ids| == |hashes| && Distinct(ids) && other != user && (forall i :: 0 <= i < |ids| ==> ids[i] !in s.codes)
    requires CompleteEnrollment(s, other, ids, hashes).Ok?
    ensures Matching(CompleteEnrollment(s, other, ids, hashes).value, user, hash) == Matching(s, user, hash)
  {
    NewCodesAre(other, ids, hashes);
    var after := CompleteEnrollment(s, other, ids, hashes).value;
    forall id ensures id in Matching(after, user, hash) <==> id in Matching(s, user, hash) {
      if id in Members(ids) {
        var i :| 0 <= i < |ids| && ids[i] == id;
      }
    }
  }

  /** Consuming a code takes out the rows of that user and hash and no others. */
  lemma ConsumeTakesItsRows(s: Store, other: Id, spent: Hash, at: Time, user: Id, hash: Hash)
    ensures Matching(ConsumeRecoveryCode(s, other, spent, at), user, hash) ==
      if other == user && spent == hash then {} else Matching(s, user, hash)
  {
  }

  /** One request, while the factor is on before and after it: a code stops working exactly when it is
      presented. */
  lemma RequestSpendsIff(crypto: Crypto, w: World, r: Request, user: Id, hash: Hash)
    requires FreshIds(w.store, r) && w.store.On(user) && Serve(crypto, w, r).store.On(user)
    ensures Matching(Serve(crypto, w, r).store, user, hash) ==
      if Presents(crypto, w.store, r, user, hash) then {} else Matching(w.store, user, hash)
  {
    match r
    case ConfirmCall(other, code, at, ids, raw) =>
      if other != user && CompleteEnrollment(w.store, other, ids, Hashes(crypto, raw)).Ok? {
        OtherEnrolmentKeepsRows(w.store, other, ids, Hashes(crypto, raw), user, hash);
      }
    case VerifyCall(other, code, at) =>
      ConsumeTakesItsRows(w.store, other, crypto.hash(TrimSpace(code)), at, user, hash);
    case DisableCall(other, code, at) =>
      ConsumeTakesItsRows(w.store, other, crypto.hash(TrimSpace(code)), at, user, hash);
      DisableKeepsOthers(crypto, w.store, other, code, at, user, hash);
    case _ =>
  }

  lemma DisableKeepsOthers(crypto: Crypto, s: Store, other: Id, code: string, at: Time, user: Id, hash: Hash)
    requires s.On(user) && DisableStep(crypto, s, other, code, at).On(user)
    ensures var v := VerifyStep(crypto, s, other, code, at).store;
      Matching(DisableStep(crypto, s, other, code, at), user, hash) == Matching(v, user, hash)
  {
    CodesOnly(crypto, s, other, code, at);
  }

  lemma {:induction false} WorksUntilPresented(crypto: Crypto, w: World, rs: seq<Request>, user: Id, hash: Hash)
    requires StaysOn(crypto, w, rs, user) && forall r :: r in rs && r.ConfirmCall? ==> |r.ids| == |r.raw|
    ensures Matching(ServeAll(crypto, w, rs).store, user, hash) != {} <==>
      Matching(w.store, user, hash) != {} && NeverPresented(crypto, w, rs, user, hash)
    decreases |rs|
  {
    if rs != [] {
      RequestSpendsIff(crypto, w, rs[0], user, hash);
      WorksUntilPresented(crypto, Serve(crypto, w, rs[0]), rs[1..], user, hash);
    }
  }

  /** After a successful Confirm, for as long as the factor stays on and whatever requests of whatever
      users are served meanwhile: a returned code is accepted exactly when it was not presented before,
      so once and never again. (It must not happen to be the one-time password of the moment.) */
  lemma ReturnedCodesWorkOnce(crypto: Crypto, s: State, user: Id, code: string, at: Time, ids: seq<Id>, raw: seq<string>,
                              proofs: map<Id, Proof>, rs: seq<Request>, i: nat, t: Time)
    requires Inv(s) && i < |raw| && |ids| == |raw| && FreshCodes(s, user, ids, Hashes(crypto, raw))
    requires ConfirmStep(crypto, s.store, user, code, at, ids, raw).codes.Ok?
    requires raw[i] != "" && TrimSpace(raw[i]) == raw[i]
    requires forall secret, now :: !crypto.totp(secret, raw[i], now)
    requires StaysOn(crypto, World(ConfirmStep(crypto, s.store, user, code, at, ids, raw).store, proofs), rs, user)
    requires forall r :: r in rs && r.ConfirmCall? ==> |r.ids| == |r.raw|
    ensures var w := World(ConfirmStep(crypto, s.store, user, code, at, ids, raw).store, proofs);
      VerifyStep(crypto, ServeAll(crypto, w, rs).store, user, raw[i], t).valid <==>
        NeverPresented(crypto, w, rs, user, crypto.hash(raw[i]))
  {
    var hashes := Hashes(crypto, raw);
    var w := World(ConfirmStep(crypto, s.store, user, code, at, ids, raw).store, proofs);
    CompleteShape(s, user, ids, hashes);
    assert ids[i] in Matching(w.store, user, hashes[i]);
    WorksUntilPresented(crypto, w, rs, user, hashes[i]);
    EnrolledSecretStays(crypto, w, rs, user);
  }

  /** While the factor stays on, a stored secret stays stored. */
  lemma {:induction false} EnrolledSecretStays(crypto: Crypto, w: World, rs: seq<Request>, user: Id)
    requires StaysOn(crypto, w, rs, user) && user in w.store.secrets
    requires forall r :: r in rs && r.ConfirmCall? ==> |r.ids| == |r.raw|
    ensures user in ServeAll(crypto, w, rs).store.secrets
    decreases |rs|
  {
    if rs != [] {
      var r := rs[0];
      if r.VerifyCall? || r.DisableCall? {
        CodesOnly(crypto, w.store, r.user, r.code, r.at);
      }
      EnrolledSecretStays(crypto, Serve(crypto, w, r), rs[1..], user);
    }
  }

  // ----- The service object -----

  lemma MatchingIff(s: Store, user: Id, hash: Hash)
    ensures Matching(s, user, hash) != {} <==>
      exists id :: id in s.codes && s.codes[id].user == user && s.codes[id].hash == hash && s.codes[id].usedAt == None
  {
    if id :| id in s.codes && s.codes[id].user == user && s.codes[id].hash == hash && s.codes[id].usedAt == None {
      assert id in Matching(s, user, hash);
    }
  }

  class Service {
    const store: MfaStore
    const crypto: Crypto

    constructor (store: MfaStore, crypto: Crypto)
      ensures this.store == store && this.crypto == crypto
    {
      this.store, this.crypto := store, crypto;
    }

    /** The secret is freshly generated. */
    method Setup(user: Id, secret: Secret) returns (error: Option<Error>)
      modifies store
      ensures error == None <==> user in old(store.enabled) && !old(store.enabled)[user]
      ensures error == Some(UserNotFound) <==> user !in old(store.enabled)
      ensures store.enabled == old(store.enabled) && store.codes == old(store.codes)
      ensures store.secrets == if error == None then old(store.secrets)[user := secret] else old(store.secrets)
      ensures match StoreSetupSecret(old(store.Snapshot()), user, secret)
        case Ok(after) => error == None && store.Snapshot() == after
        case Err(e) => error == Some(e) && store.Snapshot() == old(store.Snapshot())
    {
      error := store.StoreSetupSecret(user, secret);
    }

    /** random are the raw codes the generator hands out, ids the row ids. */
    method Confirm(user: Id, code: string, at: Time, ids: seq<Id>, random: seq<string>)
      returns (result: Result<seq<string>, Error>)
      requires |ids| == |random| == RECOVERY_CODE_COUNT && Distinct(ids)
      modifies store
      ensures result.Ok? <==>
        && user in old(store.secrets) && crypto.totp(old(store.secrets)[user], TrimSpace(code), at)
        && user in old(store.enabled) && !old(store.enabled)[user]
      ensures result.Ok? ==>
        result.value == random && Enrolled(old(store.Snapshot()), store.Snapshot(), crypto, user, ids, random)
      ensures result.Err? ==> store.Snapshot() == old(store.Snapshot())
      ensures result == Err(NotEnrolling) <==> user !in old(store.secrets)
      ensures Confirmed(store.Snapshot(), result)
        == ConfirmStep(crypto, old(store.Snapshot()), user, code, at, ids, random)
    {
      ConfirmOutcome(crypto, store.Snapshot(), user, code, at, ids, random);
      var secret := store.GetMfaSecret(user);
      if secret == None {
        return Err(NotEnrolling);
      }
      if !crypto.totp(secret.value, TrimSpace(code), at) {
        return Err(InvalidCode);
      }
      var rawCodes, hashes := [], [];
      for i := 0 to RECOVERY_CODE_COUNT
        invariant rawCodes == random[..i] && hashes == Hashes(crypto, random[..i])
      {
        rawCodes := rawCodes + [random[i]];
        hashes := hashes + [crypto.hash(random[i])];
        assert random[..i + 1][..i] == random[..i];
      }
      assert random[..RECOVERY_CODE_COUNT] == random;
      var error := store.CompleteEnrollment(user, ids, hashes);
      if error != None {
        return Err(error.value);
      }
      return Ok(rawCodes);
    }

    /** The trimmed code is right: the secret's one-time password of the moment, or an unused recovery code
        of the user. */
    ghost predicate RightCode(user: Id, code: string, at: Time)
      reads this, store
    {
      && TrimSpace(code) != "" && user in store.secrets
      && (crypto.totp(store.secrets[user], TrimSpace(code), at)
          || exists id :: id in store.codes && store.codes[id].user == user
               && store.codes[id].hash == crypto.hash(TrimSpace(code)) && store.codes[id].usedAt == None)
    }

    /** A one-time password changes nothing; a recovery code is used up, and with it nothing else. */
    method Verify(user: Id, code: string, at: Time) returns (valid: bool)
      modifies store
      ensures valid <==> old(RightCode(user, code, at))
      ensures store.enabled == old(store.enabled) && store.secrets == old(store.secrets)
      ensures !valid || crypto.totp(store.secrets[user], TrimSpace(code), at) ==> store.codes == old(store.codes)
      ensures store.codes.Keys == old(store.codes).Keys
      ensures valid && !crypto.totp(store.secrets[user], TrimSpace(code), at) ==>
        forall id :: id in store.codes ==>
          store.codes[id] ==
            var before := old(store.codes)[id];
            if before.user == user && before.hash == crypto.hash(TrimSpace(code)) && before.usedAt == None
            then before.(usedAt := Some(at)) else before
      ensures Verified(store.Snapshot(), valid) == VerifyStep(crypto, old(store.Snapshot()), user, code, at)
    {
      var trimmed := TrimSpace(code);
      if trimmed == "" {
        return false;
      }
      var secret := store.GetMfaSecret(user);
      if secret == None {
        return false;
      }
      if crypto.totp(secret.value, trimmed, at) {
        return true;
      }
      MatchingIff(store.Snapshot(), user, crypto.hash(trimmed));
      valid := store.ConsumeRecoveryCode(user, crypto.hash(trimmed), at);
    }

    /** A right code switches the factor off, and removes the secret and every recovery code of the user and
        nothing of anybody else; any other code changes nothing. */
    method Disable(user: Id, code: string, at: Time) returns (error: Option<Error>)
      modifies store
      ensures error == None <==> old(RightCode(user, code, at)) && user in old(store.enabled)
      ensures error == Some(InvalidCode) <==> !old(RightCode(user, code, at))
      ensures error == Some(UserNotFound) <==> old(RightCode(user, code, at)) && user !in old(store.enabled)
      ensures error == None ==> store.enabled == old(store.enabled)[user := false] && store.secrets == old(store.secrets) - {user}
      ensures error == None ==> forall id :: id in store.codes <==> id in old(store.codes) && old(store.codes)[id].user != user
      ensures error == None ==> forall id :: id in store.codes ==> store.codes[id] == old(store.codes)[id]
      ensures store.Snapshot() == DisableStep(crypto, old(store.Snapshot()), user, code, at)
      ensures error == None ==> !store.Snapshot().On(user) && user !in store.secrets && store.Snapshot().Codes(user) == {}
      ensures !VerifyStep(crypto, old(store.Snapshot()), user, code, at).valid ==>
        error == Some(InvalidCode) && store.Snapshot() == old(store.Snapshot())
    {
      if !VerifyStep(crypto, store.Snapshot(), user, code, at).valid {
        InvalidCodeChangesNothing(crypto, store.Snapshot(), user, code, at);
      }
      var valid := Verify(user, code, at);
      if !valid {
        return Some(InvalidCode);
      }
      error := store.DisableMfa(user);
    }
  }
}
