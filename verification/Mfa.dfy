/**
 Second-factor enrolment: the locked transactions on a user's secret and recovery codes, every
 interleaving of them, and the service calls made of them.
 */
module Mfa {
  import opened Sequences
  import opened Text
  import opened Wrappers

  type Id = nat
  type Hash = nat
  type Time = int
  type Secret = string

  const RECOVERY_CODE_COUNT: nat := 10

  datatype Code = Code(user: Id, hash: Hash, usedAt: Option<Time>)

  /** users.mfa_enabled, user_mfa_secrets and user_mfa_recovery_codes. */
  datatype Store = Store(enabled: map<Id, bool>, secrets: map<Id, Secret>, codes: map<Id, Code>) {
    predicate On(user: Id) {
      user in enabled && enabled[user]
    }

    /** Every recovery code stored for the user. */
    function Codes(user: Id): set<Id> {
      set id | id in codes && codes[id].user == user
    }

    function Used(user: Id): set<Id> {
      set id | id in codes && codes[id].user == user && codes[id].usedAt.Some?
    }

    function Unused(user: Id): set<Id> {
      set id | id in codes && codes[id].user == user && codes[id].usedAt.None?
    }
  }

  datatype Error = UserNotFound | AlreadyEnabled | NotEnrolling | InvalidCode

  // ----- The transactions -----

  function StoreSetupSecret(s: Store, user: Id, secret: Secret): Result<Store, Error> {
    if user !in s.enabled then Err(UserNotFound)
    else if s.enabled[user] then Err(AlreadyEnabled)
    else Ok(s.(secrets := s.secrets[user := secret]))
  }

  function NewCodes(user: Id, ids: seq<Id>, hashes: seq<Hash>): map<Id, Code>
    requires |ids| == |hashes|
  {
    if ids == [] then map[]
    else NewCodes(user, ids[..|ids| - 1], hashes[..|ids| - 1])[ids[|ids| - 1] := Code(user, hashes[|ids| - 1], None)]
  }

  function CompleteEnrollment(s: Store, user: Id, ids: seq<Id>, hashes: seq<Hash>): Result<Store, Error>
    requires |ids| == |hashes|
  {
    if user !in s.enabled then Err(UserNotFound)
    else if s.enabled[user] then Err(AlreadyEnabled)
    else Ok(s.(codes := s.codes - s.Codes(user) + NewCodes(user, ids, hashes), enabled := s.enabled[user := true]))
  }

  function DisableMfa(s: Store, user: Id): Result<Store, Error> {
    if user !in s.enabled then Err(UserNotFound)
    else Ok(Store(s.enabled[user := false], s.secrets - {user}, s.codes - s.Codes(user)))
  }

  function Matching(s: Store, user: Id, hash: Hash): set<Id> {
    set id | id in s.codes && s.codes[id].user == user && s.codes[id].hash == hash && s.codes[id].usedAt.None?
  }

  function ConsumeRecoveryCode(s: Store, user: Id, hash: Hash, now: Time): Store {
    s.(codes := map id | id in s.codes ::
      if id in Matching(s, user, hash) then s.codes[id].(usedAt := Some(now)) else s.codes[id])
  }

  // ----- Any interleaving of the transactions -----

  /** What happened so far: each user's last batch of codes, the codes spent since, every code ever
      issued to a user, and every code ever accepted. */
  datatype State = State(
    store: Store, batch: map<Id, set<Id>>, spent: map<Id, nat>,
    issued: set<(Id, Hash)>, accepted: multiset<(Id, Hash)>)

  datatype Event =
    | CreateUser(user: Id)
    | Setup(user: Id, secret: Secret)
    | Complete(user: Id, ids: seq<Id>, hashes: seq<Hash>)
    | Disable(user: Id)
    | Consume(user: Id, hash: Hash, now: Time)

  /** Freshly generated codes: ids not in the table, hashes never issued to the user. */
  ghost predicate FreshCodes(s: State, user: Id, ids: seq<Id>, hashes: seq<Hash>) {
    && |ids| == |hashes| == RECOVERY_CODE_COUNT && Distinct(ids) && Distinct(hashes)
    && (forall i :: 0 <= i < |ids| ==> ids[i] !in s.store.codes)
    && (forall i :: 0 <= i < |hashes| ==> (user, hashes[i]) !in s.issued)
  }

  ghost predicate CanHappen(s: State, e: Event) {
    match e
    case CreateUser(user) => user !in s.store.enabled
    case Complete(user, ids, hashes) => FreshCodes(s, user, ids, hashes)
    case _ => true
  }

  function Pairs(user: Id, hashes: seq<Hash>): set<(Id, Hash)> {
    set i | 0 <= i < |hashes| :: (user, hashes[i])
  }

  function DoComplete(s: State, user: Id, ids: seq<Id>, hashes: seq<Hash>): State
    requires |ids| == |hashes|
  {
    match CompleteEnrollment(s.store, user, ids, hashes)
    case Err(_) => s
    case Ok(store) =>
      State(store, s.batch[user := Members(ids)], s.spent[user := 0], s.issued + Pairs(user, hashes), s.accepted)
  }

  function DoConsume(s: State, user: Id, hash: Hash, now: Time): State {
    var store := ConsumeRecoveryCode(s.store, user, hash, now);
    if Matching(s.store, user, hash) == {} then s.(store := store)
    else s.(store := store, accepted := s.accepted + multiset{(user, hash)},
            spent := s.spent[user := (if user in s.spent then s.spent[user] else 0) + 1])
  }

  function Apply(s: State, e: Event): State
    requires e.Complete? ==> |e.ids| == |e.hashes|
  {
    match e
    case CreateUser(user) => s.(store := s.store.(enabled := s.store.enabled[user := false]))
    case Setup(user, secret) =>
      (match StoreSetupSecret(s.store, user, secret) case Err(_) => s case Ok(store) => s.(store := store))
    case Complete(user, ids, hashes) => DoComplete(s, user, ids, hashes)
    case Disable(user) => (match DisableMfa(s.store, user) case Err(_) => s case Ok(store) => s.(store := store))
    case Consume(user, hash, now) => DoConsume(s, user, hash, now)
  }

  ghost predicate ValidRun(s: State, run: seq<Event>)
    decreases |run|
  {
    run == [] || (CanHappen(s, run[0]) && ValidRun(Apply(s, run[0]), run[1..]))
  }

  ghost function Exec(s: State, run: seq<Event>): State
    requires ValidRun(s, run)
    decreases |run|
  {
    if run == [] then s else Exec(Apply(s, run[0]), run[1..])
  }

  ghost predicate Init(s: State) {
    s.store == Store(map[], map[], map[]) && s.issued == {} && s.accepted == multiset{}
  }

  // ----- The invariant -----

  /** The user's rows are the whole of one batch, distinct, with as many used as were accepted since. */
  ghost predicate EnrolledOk(s: State, user: Id) {
    && user in s.batch && user in s.spent
    && s.store.Codes(user) == s.batch[user]
    && |s.batch[user]| == RECOVERY_CODE_COUNT
    && |s.store.Used(user)| == s.spent[user]
  }

  ghost predicate HashesOk(store: Store) {
    forall a, b ::
      (a in store.codes && b in store.codes
       && store.codes[a].user == store.codes[b].user && store.codes[a].hash == store.codes[b].hash) ==> a == b
  }

  /** A stored code was issued; it was accepted once if it is used and never otherwise. */
  ghost predicate AcceptedOk(s: State) {
    && (forall id :: id in s.store.codes ==>
         var code := s.store.codes[id];
         (code.user, code.hash) in s.issued
         && s.accepted[(code.user, code.hash)] == if code.usedAt.Some? then 1 else 0)
    && (forall pair :: pair in s.accepted ==> pair in s.issued && s.accepted[pair] == 1)
  }

  ghost predicate Inv(s: State) {
    && (forall user :: s.store.On(user) ==> EnrolledOk(s, user))
    && (forall user :: !s.store.On(user) ==> s.store.Codes(user) == {})
    && HashesOk(s.store)
    && AcceptedOk(s)
  }

  lemma {:induction false} NewCodesAre(user: Id, ids: seq<Id>, hashes: seq<Hash>)
    requires |ids| == |hashes| && Distinct(ids)
    ensures var fresh' := NewCodes(user, ids, hashes);
      && fresh'.Keys == Members(ids)
      && forall i :: 0 <= i < |ids| ==> fresh'[ids[i]] == Code(user, hashes[i], None)
  {
    if ids != [] {
      var n := |ids| - 1;
      NewCodesAre(user, ids[..n], hashes[..n]);
      assert ids == ids[..n] + [ids[n]];
      forall i | 0 <= i < n ensures NewCodes(user, ids, hashes)[ids[i]] == Code(user, hashes[i], None) {
        assert ids[..n][i] == ids[i] && ids[i] != ids[n];
      }
    }
  }

  lemma UsedPlusUnused(store: Store, user: Id)
    ensures |store.Used(user)| + |store.Unused(user)| == |store.Codes(user)|
  {
    assert store.Codes(user) == store.Used(user) + store.Unused(user);
  }

  /** The rows of other users are the same. */
  ghost predicate OthersSame(a: Store, b: Store, user: Id) {
    && (forall id :: id in a.codes && a.codes[id].user != user ==> id in b.codes && b.codes[id] == a.codes[id])
    && (forall id :: id in b.codes && b.codes[id].user != user ==> id in a.codes && b.codes[id] == a.codes[id])
    && (forall other :: other != user ==> (a.On(other) <==> b.On(other)))
  }

  lemma OthersStayOk(s: State, t: State, user: Id, other: Id)
    requires Inv(s) && OthersSame(s.store, t.store, user) && other != user
    requires other in s.batch ==> other in t.batch && t.batch[other] == s.batch[other]
    requires other in s.spent ==> other in t.spent && t.spent[other] == s.spent[other]
    ensures if t.store.On(other) then EnrolledOk(t, other) else t.store.Codes(other) == {}
  {
    assert t.store.Codes(other) == s.store.Codes(other);
    assert t.store.Used(other) == s.store.Used(other);
    assert s.store.On(other) ==> EnrolledOk(s, other);
  }

  lemma CompleteShape(s: State, user: Id, ids: seq<Id>, hashes: seq<Hash>)
    requires Inv(s) && FreshCodes(s, user, ids, hashes) && user in s.store.enabled && !s.store.enabled[user]
    ensures var t := DoComplete(s, user, ids, hashes);
      && OthersSame(s.store, t.store, user)
      && t.store.Codes(user) == Members(ids) && t.store.Used(user) == {}
      && (forall i :: 0 <= i < |ids| ==> ids[i] in t.store.codes && t.store.codes[ids[i]] == Code(user, hashes[i], None))
  {
    NewCodesAre(user, ids, hashes);
    assert s.store.Codes(user) == {};
    EnrolmentShape(s.store, user, ids, hashes);
  }

  /** The store's side of it: the user had no codes, so the new ones are added. */
  lemma EnrolmentShape(store: Store, user: Id, ids: seq<Id>, hashes: seq<Hash>)
    requires |ids| == |hashes| && Distinct(ids) && user in store.enabled && !store.enabled[user]
    requires store.Codes(user) == {} && forall id :: id in ids ==> id !in store.codes
    requires CompleteEnrollment(store, user, ids, hashes).Ok?
    ensures var t := CompleteEnrollment(store, user, ids, hashes).value;
      && OthersSame(store, t, user) && t.Codes(user) == Members(ids) && t.Used(user) == {}
      && (forall i :: 0 <= i < |ids| ==> ids[i] in t.codes && t.codes[ids[i]] == Code(user, hashes[i], None))
  {
    var t := CompleteEnrollment(store, user, ids, hashes).value;
    NewCodesAre(user, ids, hashes);
    assert t.codes == store.codes + NewCodes(user, ids, hashes);
    forall id ensures id in t.Codes(user) <==> id in Members(ids) {
      if id in Members(ids) {
        var i :| 0 <= i < |ids| && ids[i] == id;
      } else if id in store.codes {
        assert id !in store.Codes(user);
      }
    }
    forall id | id in t.Codes(user) ensures t.codes[id].usedAt.None? {
      var i :| 0 <= i < |ids| && ids[i] == id;
    }
  }

  lemma CompleteKeepsAccepted(s: State, user: Id, ids: seq<Id>, hashes: seq<Hash>)
    requires Inv(s) && FreshCodes(s, user, ids, hashes) && user in s.store.enabled && !s.store.enabled[user]
    ensures HashesOk(DoComplete(s, user, ids, hashes).store) && AcceptedOk(DoComplete(s, user, ids, hashes))
  {
    var t := DoComplete(s, user, ids, hashes);
    CompleteShape(s, user, ids, hashes);
    forall a, b | a in t.store.codes && b in t.store.codes && t.store.codes[a].user == t.store.codes[b].user
        && t.store.codes[a].hash == t.store.codes[b].hash
      ensures a == b
    {
      if t.store.codes[a].user == user {
        assert a in t.store.Codes(user) && b in t.store.Codes(user);
        var i :| 0 <= i < |ids| && ids[i] == a;
        var j :| 0 <= j < |ids| && ids[j] == b;
      }
    }
    forall id | id in t.store.codes
      ensures var code := t.store.codes[id];
        (code.user, code.hash) in t.issued && t.accepted[(code.user, code.hash)] == if code.usedAt.Some? then 1 else 0
    {
      if t.store.codes[id].user == user {
        assert id in t.store.Codes(user);
        var i :| 0 <= i < |ids| && ids[i] == id;
        assert (user, hashes[i]) !in s.accepted;
      }
    }
  }

  lemma CompleteKeepsInv(s: State, user: Id, ids: seq<Id>, hashes: seq<Hash>)
    requires Inv(s) && FreshCodes(s, user, ids, hashes)
    ensures Inv(DoComplete(s, user, ids, hashes))
  {
    var t := DoComplete(s, user, ids, hashes);
    if user in s.store.enabled && !s.store.enabled[user] {
      CompleteShape(s, user, ids, hashes);
      CompleteKeepsAccepted(s, user, ids, hashes);
      DistinctSize(ids);
      assert EnrolledOk(t, user);
      forall other | other != user ensures if t.store.On(other) then EnrolledOk(t, other) else t.store.Codes(other) == {} {
        OthersStayOk(s, t, user, other);
      }
    }
  }

  lemma DisableShape(store: Store, user: Id)
    requires DisableMfa(store, user).Ok?
    ensures var t := DisableMfa(store, user).value;
      && t.Codes(user) == {} && !t.On(user) && OthersSame(store, t, user)
      && forall id :: id in t.codes ==> id in store.codes && t.codes[id] == store.codes[id]
  {
  }

  lemma DisableKeepsAccepted(s: State, user: Id)
    requires Inv(s) && user in s.store.enabled
    ensures HashesOk(Apply(s, Disable(user)).store) && AcceptedOk(Apply(s, Disable(user)))
  {
    DisableShape(s.store, user);
  }

  lemma DisableKeepsInv(s: State, user: Id)
    requires Inv(s) && user in s.store.enabled
    ensures Inv(Apply(s, Disable(user)))
  {
    var t := Apply(s, Disable(user));
    DisableShape(s.store, user);
    DisableKeepsAccepted(s, user);
    forall other | other != user ensures if t.store.On(other) then EnrolledOk(t, other) else t.store.Codes(other) == {} {
      OthersStayOk(s, t, user, other);
    }
  }

  /** At most one row matches, and consuming it marks exactly that row. */
  lemma ConsumeShape(s: State, user: Id, hash: Hash, now: Time)
    requires Inv(s)
    ensures var hit, t := Matching(s.store, user, hash), ConsumeRecoveryCode(s.store, user, hash, now);
      && OthersSame(s.store, t, user) && t.Codes(user) == s.store.Codes(user)
      && t.Used(user) == s.store.Used(user) + hit && hit !! s.store.Used(user)
      && |hit| <= 1 && (hit == {} ==> t == s.store) && (hit != {} ==> s.store.On(user))
  {
    var hit, t := Matching(s.store, user, hash), ConsumeRecoveryCode(s.store, user, hash, now);
    OneMatch(s, user, hash);
    UsedAfterConsume(s.store, user, hash, now);
    ConsumeKeepsOthers(s.store, user, hash, now);
  }

  lemma ConsumeKeepsOthers(store: Store, user: Id, hash: Hash, now: Time)
    ensures OthersSame(store, ConsumeRecoveryCode(store, user, hash, now), user)
    ensures Matching(store, user, hash) == {} ==> ConsumeRecoveryCode(store, user, hash, now) == store
  {
    if Matching(store, user, hash) == {} {
      assert ConsumeRecoveryCode(store, user, hash, now).codes == store.codes;
    }
  }

  lemma OneMatch(s: State, user: Id, hash: Hash)
    requires HashesOk(s.store) && (!s.store.On(user) ==> s.store.Codes(user) == {})
    ensures var hit := Matching(s.store, user, hash); |hit| <= 1 && (hit != {} ==> s.store.On(user))
  {
    var hit := Matching(s.store, user, hash);
    if id :| id in hit {
      assert hit == {id};
      assert id in s.store.Codes(user);
    }
  }

  lemma UsedAfterConsume(store: Store, user: Id, hash: Hash, now: Time)
    ensures var hit, t := Matching(store, user, hash), ConsumeRecoveryCode(store, user, hash, now);
      && t.Used(user) == store.Used(user) + hit && hit !! store.Used(user) && t.Codes(user) == store.Codes(user)
  {
    var hit, t := Matching(store, user, hash), ConsumeRecoveryCode(store, user, hash, now);
    assert t.Used(user) == store.Used(user) + hit;
    assert t.Codes(user) == store.Codes(user);
  }

  /** A matching row is the only one, and the only one consuming changes. */
  lemma ConsumedRow(store: Store, user: Id, hash: Hash, now: Time, id: Id)
    requires HashesOk(store) && id in Matching(store, user, hash)
    ensures ConsumeRecoveryCode(store, user, hash, now) ==
      store.(codes := store.codes[id := store.codes[id].(usedAt := Some(now))])
  {
    assert Matching(store, user, hash) == {id};
    assert ConsumeRecoveryCode(store, user, hash, now).codes == store.codes[id := store.codes[id].(usedAt := Some(now))];
  }

  lemma ConsumeKeepsAccepted(s: State, user: Id, hash: Hash, now: Time)
    requires HashesOk(s.store) && AcceptedOk(s)
    ensures HashesOk(DoConsume(s, user, hash, now).store) && AcceptedOk(DoConsume(s, user, hash, now))
  {
    if id :| id in Matching(s.store, user, hash) {
      ConsumedRow(s.store, user, hash, now, id);
      assert s.accepted[(user, hash)] == 0;
    } else {
      ConsumeKeepsOthers(s.store, user, hash, now);
    }
  }

  lemma UsedGrows(used: set<Id>, hit: set<Id>)
    requires hit !! used && 0 < |hit| <= 1
    ensures |used + hit| == |used| + 1
  {
  }

  /** The batch of a user who spends a code. */
  lemma SpenderStaysOk(s: State, user: Id, hash: Hash, now: Time)
    requires Inv(s) && Matching(s.store, user, hash) != {}
    ensures s.store.On(user) && EnrolledOk(DoConsume(s, user, hash, now), user)
  {
    ConsumeShape(s, user, hash, now);
    assert EnrolledOk(s, user);
    UsedGrows(s.store.Used(user), Matching(s.store, user, hash));
  }

  lemma ConsumeKeepsInv(s: State, user: Id, hash: Hash, now: Time)
    requires Inv(s)
    ensures Inv(DoConsume(s, user, hash, now))
  {
    var t := DoConsume(s, user, hash, now);
    ConsumeKeepsAccepted(s, user, hash, now);
    ConsumeKeepsOthers(s.store, user, hash, now);
    if Matching(s.store, user, hash) != {} {
      SpenderStaysOk(s, user, hash, now);
      forall other | other != user ensures if t.store.On(other) then EnrolledOk(t, other) else t.store.Codes(other) == {} {
        OthersStayOk(s, t, user, other);
      }
    }
  }

  lemma SameCodesKeepInv(s: State, t: State)
    requires Inv(s) && t.store.codes == s.store.codes && t.batch == s.batch && t.spent == s.spent
    requires t.issued == s.issued && t.accepted == s.accepted
    requires forall user :: s.store.On(user) <==> t.store.On(user)
    ensures Inv(t)
  {
    forall user ensures t.store.Codes(user) == s.store.Codes(user) && t.store.Used(user) == s.store.Used(user) {
    }
    forall user | t.store.On(user) ensures EnrolledOk(t, user) {
      assert EnrolledOk(s, user);
    }
    assert HashesOk(t.store) && AcceptedOk(t);
  }

  lemma StepKeepsInv(s: State, e: Event)
    requires Inv(s) && CanHappen(s, e)
    ensures Inv(Apply(s, e))
  {
    match e
    case CreateUser(_) => SameCodesKeepInv(s, Apply(s, e));
    case Setup(_, _) => SameCodesKeepInv(s, Apply(s, e));
    case Complete(user, ids, hashes) => CompleteKeepsInv(s, user, ids, hashes);
    case Disable(user) =>
      if user in s.store.enabled {
        DisableKeepsInv(s, user);
      }
    case Consume(user, hash, now) => ConsumeKeepsInv(s, user, hash, now);
  }

  lemma {:induction false} RunKeepsInv(s: State, run: seq<Event>)
    requires Inv(s) && ValidRun(s, run)
    ensures Inv(Exec(s, run))
    decreases |run|
  {
    if run != [] {
      StepKeepsInv(s, run[0]);
      RunKeepsInv(Apply(s, run[0]), run[1..]);
    }
  }

  // ----- What every interleaving guarantees -----

  /** Recovery codes are stored exactly while the second factor is on; then they are the ten of one
      enrolment, and the unused ones plus those accepted since make ten. */
  lemma CodesExistIffEnabled(s: State, run: seq<Event>, user: Id)
    requires Init(s) && ValidRun(s, run)
    ensures var t := Exec(s, run);
      && (t.store.Codes(user) != {} <==> t.store.On(user))
      && (t.store.On(user) ==>
           && user in t.batch && user in t.spent && t.store.Codes(user) == t.batch[user]
           && |t.store.Codes(user)| == 10
           && |t.store.Unused(user)| + t.spent[user] == 10)
  {
    RunKeepsInv(s, run);
    var t := Exec(s, run);
    UsedPlusUnused(t.store, user);
    assert t.store.On(user) ==> EnrolledOk(t, user);
  }

  /** No code is accepted twice. */
  lemma NoCodeAcceptedTwice(s: State, run: seq<Event>, user: Id, hash: Hash)
    requires Init(s) && ValidRun(s, run)
    ensures Exec(s, run).accepted[(user, hash)] <= 1
  {
    RunKeepsInv(s, run);
  }

  /** Presenting a code accepts it exactly when it is stored unused for the user; then it stops matching, and
      no other code does. */
  lemma ConsumeSpendsIff(s: State, user: Id, hash: Hash, now: Time, other: Id, h: Hash)
    ensures var t := Apply(s, Consume(user, hash, now));
      var stored := exists id ::
        id in s.store.codes && s.store.codes[id].user == user && s.store.codes[id].hash == hash && s.store.codes[id].usedAt == None;
      && t.accepted == s.accepted + (if stored then multiset{(user, hash)} else multiset{})
      && Matching(t.store, other, h) == (if other == user && h == hash then {} else Matching(s.store, other, h))
      && t.store.enabled == s.store.enabled && t.store.secrets == s.store.secrets
  {
    if id :| id in s.store.codes && s.store.codes[id].user == user && s.store.codes[id].hash == hash && s.store.codes[id].usedAt == None {
      assert id in Matching(s.store, user, hash);
    } else {
      assert Matching(s.store, user, hash) == {};
    }
  }

  /** A set-up stores the secret exactly while the factor of an existing user is off. */
  lemma SetupStoresIff(s: State, user: Id, secret: Secret, other: Id)
    ensures var t := Apply(s, Setup(user, secret));
      && t.store.codes == s.store.codes && t.store.enabled == s.store.enabled && t.accepted == s.accepted
      && ((user, secret) in t.store.secrets.Items <==>
           (user in s.store.enabled && !s.store.enabled[user]) || (user, secret) in s.store.secrets.Items)
      && (other != user ==> SecretOf(t.store, other) == SecretOf(s.store, other))
  {
  }

  /** A code is accepted exactly when it was issued in the current enrolment and not accepted before. */
  lemma AcceptedIff(s: State, run: seq<Event>, user: Id, hash: Hash)
    requires Init(s) && ValidRun(s, run)
    ensures var t := Exec(s, run);
      Matching(t.store, user, hash) != {} <==>
        (exists id :: id in t.store.Codes(user) && t.store.codes[id].hash == hash) && t.accepted[(user, hash)] == 0
  {
    RunKeepsInv(s, run);
    var t := Exec(s, run);
    if id :| id in Matching(t.store, user, hash) {
      assert id in t.store.Codes(user);
    }
    if id :| id in t.store.Codes(user) && t.store.codes[id].hash == hash && t.accepted[(user, hash)] == 0 {
      assert id in Matching(t.store, user, hash);
    }
  }

  ghost predicate EnabledThroughout(s: State, run: seq<Event>, user: Id)
    requires ValidRun(s, run)
    decreases |run|
  {
    s.store.On(user) && (run == [] || EnabledThroughout(Apply(s, run[0]), run[1..], user))
  }

  lemma StepReplacesNothing(s: State, e: Event, user: Id)
    requires Inv(s) && CanHappen(s, e) && s.store.On(user) && Apply(s, e).store.On(user)
    ensures SecretOf(Apply(s, e).store, user) == SecretOf(s.store, user)
    ensures Apply(s, e).store.Codes(user) == s.store.Codes(user)
  {
    match e
    case Consume(other, hash, now) => ConsumeKeepsCodes(s.store, other, hash, now, user);
    case Complete(other, ids, hashes) =>
      if other in s.store.enabled && !s.store.enabled[other] {
        CompleteShape(s, other, ids, hashes);
        OthersKeepCodes(s.store, Apply(s, e).store, other, user);
      }
    case Disable(other) =>
      if other in s.store.enabled {
        DisableShape(s.store, other);
        OthersKeepCodes(s.store, Apply(s, e).store, other, user);
      }
    case _ =>
  }

  lemma OthersKeepCodes(a: Store, b: Store, user: Id, other: Id)
    requires OthersSame(a, b, user) && other != user
    ensures a.Codes(other) == b.Codes(other)
  {
  }

  lemma ConsumeKeepsCodes(store: Store, user: Id, hash: Hash, now: Time, other: Id)
    ensures ConsumeRecoveryCode(store, user, hash, now).Codes(other) == store.Codes(other)
  {
  }

  function SecretOf(store: Store, user: Id): Option<Secret> {
    if user in store.secrets then Some(store.secrets[user]) else None
  }

  /** While the second factor stays on, neither its secret nor its set of codes is replaced. */
  lemma {:induction false} NothingReplacedWhileEnabled(s: State, run: seq<Event>, user: Id)
    requires Inv(s) && ValidRun(s, run) && EnabledThroughout(s, run, user)
    ensures var t := Exec(s, run);
      SecretOf(t.store, user) == SecretOf(s.store, user) && t.store.Codes(user) == s.store.Codes(user)
    decreases |run|
  {
    if run != [] {
      var t := Apply(s, run[0]);
      StepKeepsInv(s, run[0]);
      StepReplacesNothing(s, run[0], user);
      NothingReplacedWhileEnabled(t, run[1..], user);
    }
  }

  // ----- A Confirm with other calls between its check and its transaction -----

  /** The enrolment transaction switches the factor on. */
  ghost predicate SwitchesOn(s: State, user: Id, ids: seq<Id>, hashes: seq<Hash>) {
    FreshCodes(s, user, ids, hashes) && user in s.store.enabled && !s.store.enabled[user]
  }

  /** Whatever else happens while the factor stays on, the secret in force is the one, if any, that was
      stored when the enrolment transaction switched it on. */
  lemma SecretInForceIsTheEnrolled(s: State, user: Id, ids: seq<Id>, hashes: seq<Hash>, rest: seq<Event>)
    requires Inv(s) && SwitchesOn(s, user, ids, hashes)
    requires var on := Apply(s, Complete(user, ids, hashes)); ValidRun(on, rest) && EnabledThroughout(on, rest, user)
    ensures SecretOf(Exec(Apply(s, Complete(user, ids, hashes)), rest).store, user) == SecretOf(s.store, user)
  {
    StepKeepsInv(s, Complete(user, ids, hashes));
    NothingReplacedWhileEnabled(Apply(s, Complete(user, ids, hashes)), rest, user);
  }

  /** A Confirm: it reads the secret in s and checks the user's code against it, other transactions
      follow, its own transaction switches the factor on, and the factor stays on for the rest. */
  ghost predicate ConfirmRuns(s: State, middle: seq<Event>, user: Id, ids: seq<Id>, hashes: seq<Hash>, rest: seq<Event>) {
    && ValidRun(s, middle) && SwitchesOn(Exec(s, middle), user, ids, hashes)
    && var on := Apply(Exec(s, middle), Complete(user, ids, hashes));
    ValidRun(on, rest) && EnabledThroughout(on, rest, user)
  }

  ghost function AfterConfirm(s: State, middle: seq<Event>, user: Id, ids: seq<Id>, hashes: seq<Hash>, rest: seq<Event>): State
    requires ConfirmRuns(s, middle, user, ids, hashes, rest)
  {
    Exec(Apply(Exec(s, middle), Complete(user, ids, hashes)), rest)
  }

  /** In every interleaving the secret in force is the checked one exactly when the secret stored at the
      enrolment transaction still is, which that transaction could look at under its lock. */
  lemma SecretInForceIsCheckedIff(s: State, middle: seq<Event>, user: Id, ids: seq<Id>, hashes: seq<Hash>, rest: seq<Event>,
                                  checked: Secret)
    requires Inv(s) && ConfirmRuns(s, middle, user, ids, hashes, rest) && (user, checked) in s.store.secrets.Items
    ensures (user, checked) in AfterConfirm(s, middle, user, ids, hashes, rest).store.secrets.Items <==>
      (user, checked) in Exec(s, middle).store.secrets.Items
  {
    RunKeepsInv(s, middle);
    SecretInForceIsTheEnrolled(Exec(s, middle), user, ids, hashes, rest);
  }

  /** Transactions that touch the user's secret. */
  predicate ChangesSecret(e: Event, user: Id) {
    (e.Setup? || e.Disable?) && e.user == user
  }

  lemma {:induction false} OthersKeepSecret(s: State, run: seq<Event>, user: Id)
    requires ValidRun(s, run) && forall e :: e in run ==> !ChangesSecret(e, user)
    ensures SecretOf(Exec(s, run).store, user) == SecretOf(s.store, user)
    decreases |run|
  {
    if run != [] {
      assert run[0] in run;
      OthersKeepSecret(Apply(s, run[0]), run[1..], user);
    }
  }

  /** In particular, with no Setup or Disable of that user between the check and the transaction. */
  lemma UndisturbedSecretIsChecked(s: State, middle: seq<Event>, user: Id, ids: seq<Id>, hashes: seq<Hash>, rest: seq<Event>,
                                   checked: Secret)
    requires Inv(s) && ConfirmRuns(s, middle, user, ids, hashes, rest) && (user, checked) in s.store.secrets.Items
    requires forall e :: e in middle ==> !ChangesSecret(e, user)
    ensures (user, checked) in AfterConfirm(s, middle, user, ids, hashes, rest).store.secrets.Items
  {
    OthersKeepSecret(s, middle, user);
    SecretInForceIsCheckedIff(s, middle, user, ids, hashes, rest, checked);
  }

  lemma OneTransaction(s: State, e: Event)
    requires CanHappen(s, e)
    ensures ValidRun(s, [e]) && Exec(s, [e]) == Apply(s, e)
  {
    assert ValidRun(Apply(s, e), []) && [e][1..] == [];
  }

  /** And both ways of failing happen, for every user with a secret and the factor off: a Disable in
      between leaves the factor on with no secret, a second Setup leaves it on with a secret nobody
      gave a code for. */
  lemma DisturbedSecretIsNot(s: State, user: Id, ids: seq<Id>, hashes: seq<Hash>, checked: Secret, other: Secret)
    requires Inv(s) && SwitchesOn(s, user, ids, hashes) && (user, checked) in s.store.secrets.Items && other != checked
    ensures ConfirmRuns(s, [Disable(user)], user, ids, hashes, [])
    ensures user !in AfterConfirm(s, [Disable(user)], user, ids, hashes, []).store.secrets
    ensures ConfirmRuns(s, [Setup(user, other)], user, ids, hashes, [])
    ensures (user, other) in AfterConfirm(s, [Setup(user, other)], user, ids, hashes, []).store.secrets.Items
  {
    OneTransaction(s, Disable(user));
    OneTransaction(s, Setup(user, other));
  }

  /** The first of these from the empty tables. */
  lemma EnabledWithoutSecret(ids: seq<Id>, hashes: seq<Hash>)
    requires |ids| == |hashes| == RECOVERY_CODE_COUNT && Distinct(ids) && Distinct(hashes)
    ensures var s := State(Store(map[], map[], map[]), map[], map[], {}, multiset{});
      var run := [CreateUser(1), Setup(1, "secret"), Disable(1), Complete(1, ids, hashes)];
      Init(s) && ValidRun(s, run) && Exec(s, run).store.On(1) && 1 !in Exec(s, run).store.secrets
  {
    var s := State(Store(map[], map[], map[]), map[], map[], {}, multiset{});
    var run := [CreateUser(1), Setup(1, "secret"), Disable(1), Complete(1, ids, hashes)];
    var s1 := Apply(s, run[0]);
    var s2 := Apply(s1, run[1]);
    var s3 := Apply(s2, run[2]);
    var s4 := Apply(s3, run[3]);
    assert s3.store.codes == map[];
    assert run[1..][0] == run[1] && run[1..][1..] == run[2..] && run[2..][1..] == run[3..] && run[3..][1..] == [];
    assert ValidRun(s4, []);
    assert ValidRun(s3, run[3..]) && Exec(s3, run[3..]) == s4;
    assert ValidRun(s2, run[2..]) && Exec(s2, run[2..]) == s4;
    assert ValidRun(s1, run[1..]) && Exec(s1, run[1..]) == s4;
  }
}
