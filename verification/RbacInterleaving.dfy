/**
 The same requests with anything happening between a request's authorisation, its guards and its
 transaction: what survives that, and what an active administrator remaining then depends on.
 */
module RbacInterleaving {
  import opened Permissions
  import opened Rbac
  import opened RbacOutcomes
  import opened Sequences
  import opened Text
  import opened Wrappers

  /** Where a call stands; may is what it found when it was authorised. */
  datatype Phase = Authorized(request: Request, may: bool) | Planned(tx: Tx)

  /** The tables and the calls in flight; wasAdmin records the calls whose actor was an administrator when
      it was authorised. */
  datatype State = State(db: Db, calls: map<nat, Phase>, wasAdmin: set<nat>)

  datatype Event =
    | SignUpStep(user: User)
    | AuthorizeStep(call: nat, request: Request)
    | GuardStep(call: nat)
    | CommitStep(call: nat)
    | AbortStep(call: nat)

  /** New ids are fresh and a call takes its steps in order. */
  predicate Enabled(s: State, e: Event) {
    match e
    case SignUpStep(user) => user !in s.db.active
    case AuthorizeStep(call, request) => call !in s.calls && call !in s.wasAdmin
    case GuardStep(call) => call in s.calls && s.calls[call].Authorized?
    case CommitStep(call) =>
      && call in s.calls && s.calls[call].Planned?
      && (s.calls[call].tx.CreateTx? ==> s.calls[call].tx.id !in s.db.roles)
    case AbortStep(call) => call in s.calls
  }

  /** A call that is refused, or has committed or failed to, is over; so is one whose database fails it or
      whose client goes away. */
  ghost function Apply(s: State, e: Event): State
    requires Enabled(s, e)
  {
    match e
    case SignUpStep(user) => (match SignUp(s.db, user) case Ok(db) => s.(db := db) case Err(_) => s)
    case AuthorizeStep(call, request) =>
      if Authorize(s.db, request.actor, request.Needs()).Some? then s
      else
        s.(calls := s.calls[call := Authorized(request, MayGrantAdmin(s.db, request.actor))],
           wasAdmin := s.wasAdmin + if IsAdmin(s.db, request.actor) then {call} else {})
    case GuardStep(call) =>
      (match PlanAuthorized(s.db, s.calls[call].may, s.calls[call].request)
       case Ok(tx) => s.(calls := s.calls[call := Planned(tx)])
       case Err(_) => s.(calls := s.calls - {call}))
    case CommitStep(call) =>
      (match Commit(s.db, s.calls[call].tx)
       case Ok(db) => s.(db := db, calls := s.calls - {call})
       case Err(_) => s.(calls := s.calls - {call}))
    case AbortStep(call) => s.(calls := s.calls - {call})
  }

  ghost predicate ValidRun(s: State, run: seq<Event>)
    decreases |run|
  {
    run == [] || (Enabled(s, run[0]) && ValidRun(Apply(s, run[0]), run[1..]))
  }

  ghost function Exec(s: State, run: seq<Event>): State
    requires ValidRun(s, run)
    decreases |run|
  {
    if run == [] then s else Exec(Apply(s, run[0]), run[1..])
  }

  ghost predicate Start(s: State) {
    Rbac.Init(s.db) && s.calls == map[] && s.wasAdmin == {}
  }

  // ----- What needs no atomicity -----

  ghost predicate PhaseOk(s: State, call: nat) {
    call in s.calls ==>
      match s.calls[call]
      case Authorized(_, may) => may <==> call in s.wasAdmin
      case Planned(tx) => TxOk(tx) && (tx.UpdateUserTx? ==> (tx.byAdmin <==> call in s.wasAdmin))
  }

  ghost predicate Inv(s: State) {
    Sound(s.db) && GrantsInCatalog(s.db) && forall call :: PhaseOk(s, call)
  }

  lemma SignUpKeepsCatalog(db: Db, user: User)
    requires GrantsInCatalog(db) && SignUp(db, user).Ok?
    ensures GrantsInCatalog(SignUp(db, user).value)
  {
  }

  lemma AuthorizeKeepsInv(s: State, call: nat, request: Request)
    requires Inv(s) && Enabled(s, AuthorizeStep(call, request))
    ensures Inv(Apply(s, AuthorizeStep(call, request)))
  {
    var t := Apply(s, AuthorizeStep(call, request));
    GrantingIsAdmin(s.db, request.actor);
    forall other ensures PhaseOk(t, other) {
      assert PhaseOk(s, other);
    }
  }

  lemma GuardKeepsInv(s: State, call: nat)
    requires Inv(s) && Enabled(s, GuardStep(call))
    ensures Inv(Apply(s, GuardStep(call)))
  {
    var t := Apply(s, GuardStep(call));
    var Authorized(request, may) := s.calls[call];
    if PlanAuthorized(s.db, may, request).Ok? {
      PlannedIsOk(s.db, may, request);
    }
    forall other ensures PhaseOk(t, other) {
      assert PhaseOk(s, other);
    }
  }

  lemma CommitKeepsInv(s: State, call: nat)
    requires Inv(s) && Enabled(s, CommitStep(call))
    ensures Inv(Apply(s, CommitStep(call)))
  {
    var t, tx := Apply(s, CommitStep(call)), s.calls[call].tx;
    assert PhaseOk(s, call);
    if Commit(s.db, tx).Ok? {
      CommitKeepsSound(s.db, tx);
      CommitKeepsCatalog(s.db, tx);
    }
    forall other ensures PhaseOk(t, other) {
      assert PhaseOk(s, other);
    }
  }

  lemma StepKeepsInv(s: State, e: Event)
    requires Inv(s) && Enabled(s, e)
    ensures Inv(Apply(s, e))
  {
    match e
    case SignUpStep(user) =>
      SignUpKeepsSound(s.db, user);
      SignUpKeepsCatalog(s.db, user);
      forall call ensures PhaseOk(Apply(s, e), call) {
        assert PhaseOk(s, call);
      }
    case AuthorizeStep(call, request) => AuthorizeKeepsInv(s, call, request);
    case GuardStep(call) => GuardKeepsInv(s, call);
    case CommitStep(call) => CommitKeepsInv(s, call);
    case AbortStep(call) =>
      forall other ensures PhaseOk(Apply(s, e), other) {
        assert PhaseOk(s, other);
      }
  }

  lemma StartIsOk(s: State)
    requires Start(s)
    ensures Inv(s) && AdminExists(s.db)
  {
    InitKeepsInv(s.db);
  }

  lemma {:induction false} RunKeepsInv(s: State, run: seq<Event>)
    requires Inv(s) && ValidRun(s, run)
    ensures Inv(Exec(s, run))
    decreases |run|
  {
    if run != [] {
      StepKeepsInv(s, run[0]);
      RunKeepsInv(Apply(s, run[0]), run[1..]);
    }
  }

  /** Only the admin role ever holds the wildcard, and no other role is ever called admin. */
  lemma OnlyAdminHoldsWildcard(s: State, run: seq<Event>, id: RoleId)
    requires Start(s) && ValidRun(s, run) && id in Exec(s, run).db.roles
    ensures var t := Exec(s, run).db;
      && ((id, ALL) in t.grants <==> id == ADMIN)
      && (TrimSpace(t.roles[id].name) == "admin" <==> id == ADMIN)
  {
    StartIsOk(s);
    RunKeepsInv(s, run);
  }

  /** Every user keeps a role, and no assignment refers to a deleted role or a missing user. */
  lemma EveryUserKeepsARole(s: State, run: seq<Event>, user: User)
    requires Start(s) && ValidRun(s, run)
    ensures var t := Exec(s, run).db;
      && (user in t.active <==> RolesOf(t, user) != {})
      && (forall id :: id in RolesOf(t, user) ==> id in t.roles)
  {
    StartIsOk(s);
    RunKeepsInv(s, run);
    var t := Exec(s, run).db;
    if id :| id in RolesOf(t, user) {
      assert (user, id) in t.assignments;
    }
    forall id | id in RolesOf(t, user) ensures id in t.roles {
      assert (user, id) in t.assignments;
    }
  }

  /** A permission check passes for something outside the catalog only through the wildcard. */
  lemma ChecksStayInCatalog(s: State, run: seq<Event>, user: User, p: string)
    requires Start(s) && ValidRun(s, run) && Set(PermissionsOf(Exec(s, run).db, user)).Has(p)
    ensures p in CATALOG || ALL in PermissionsOf(Exec(s, run).db, user)
  {
    StartIsOk(s);
    RunKeepsInv(s, run);
    HasStaysInCatalogIff(Set(PermissionsOf(Exec(s, run).db, user)));
  }

  /** A user becomes an administrator only by the commit of an update whose actor was one when it was
      authorised. */
  lemma AdminsAreMadeByAdmins(s: State, run: seq<Event>, e: Event, user: User)
    requires Start(s) && ValidRun(s, run) && Enabled(Exec(s, run), e)
    requires !IsAdmin(Exec(s, run).db, user) && IsAdmin(Apply(Exec(s, run), e).db, user)
    ensures e.CommitStep? && e.call in Exec(s, run).wasAdmin
    ensures var tx := Exec(s, run).calls[e.call].tx; tx.UpdateUserTx? && tx.target == user
  {
    StartIsOk(s);
    RunKeepsInv(s, run);
    var t := Exec(s, run);
    match e
    case SignUpStep(newUser) => SignUpKeepsSound(t.db, newUser);
    case CommitStep(call) =>
      assert PhaseOk(t, call);
      var tx := t.calls[call].tx;
      if tx.UpdateUserTx? {
        UpdateTouchesItsTarget(t.db, tx, user);
      } else {
        RoleTxKeepsAdmins(t.db, tx);
      }
    case _ =>
  }

  /** A call is over once its guards refuse it, its transaction has committed or failed, or it is aborted,
      which it can be at any moment; only a commit that goes through changes the tables. */
  lemma CallsEnd(s: State, call: nat)
    requires call in s.calls
    ensures Enabled(s, AbortStep(call)) && Apply(s, AbortStep(call)) == s.(calls := s.calls - {call})
    ensures Enabled(s, GuardStep(call)) ==>
      var t := Apply(s, GuardStep(call));
      t.db == s.db && (call in t.calls <==> PlanAuthorized(s.db, s.calls[call].may, s.calls[call].request).Ok?)
    ensures Enabled(s, CommitStep(call)) ==>
      var t := Apply(s, CommitStep(call));
      call !in t.calls && (Commit(s.db, s.calls[call].tx).Err? ==> t.db == s.db)
  {
  }

  // ----- Every change was authorised -----

  /** The transaction is one of the request: of its kind, and on the role or user it names. */
  ghost predicate Concerns(tx: Tx, r: Request) {
    match tx
    case CreateTx(id, _, _, _) => r.CreateRoleRequest? && r.id == id
    case UpdateRoleTx(id, _) => r.UpdateRoleRequest? && r.id == id
    case DeleteTx(id) => r.DeleteRoleRequest? && r.id == id
    case UpdateUserTx(actor, target, _, _) => r.UpdateUserRequest? && r.actor == actor && r.target == target
  }

  ghost predicate Carries(phase: Phase, r: Request) {
    match phase
    case Authorized(request, _) => request == r
    case Planned(tx) => Concerns(tx, r)
  }

  /** Step k of the run authorises the request, and finds its actor active and granted what it needs. */
  ghost predicate AuthorizedAt(s: State, run: seq<Event>, k: nat, call: nat, r: Request) {
    && k < |run| && run[k] == AuthorizeStep(call, r) && ValidRun(s, run[..k])
    && IsActive(Exec(s, run[..k]).db, r.actor) && MaySend(Exec(s, run[..k]).db, r)
  }

  /** A request gets past its authorisation exactly when its actor is active and granted what it needs. */
  lemma AuthorizedIffGranted(s: State, call: nat, r: Request)
    requires Enabled(s, AuthorizeStep(call, r))
    ensures call in Apply(s, AuthorizeStep(call, r)).calls <==> IsActive(s.db, r.actor) && MaySend(s.db, r)
  {
    AuthorizedIff(s.db, r);
  }

  lemma {:induction false} LastStep(s: State, run: seq<Event>)
    requires ValidRun(s, run) && run != []
    ensures var n := |run| - 1;
      ValidRun(s, run[..n]) && Enabled(Exec(s, run[..n]), run[n]) && Exec(s, run) == Apply(Exec(s, run[..n]), run[n])
    decreases |run|
  {
    if |run| > 1 {
      var n := |run| - 1;
      LastStep(Apply(s, run[0]), run[1..]);
      assert run[1..][..n - 1] == run[..n][1..];
    }
  }

  lemma PlanConcerns(db: Db, may: bool, r: Request)
    requires PlanAuthorized(db, may, r).Ok?
    ensures Concerns(PlanAuthorized(db, may, r).value, r)
  {
  }

  lemma StepCarries(s: State, e: Event, call: nat, r: Request)
    requires Enabled(s, e) && call in s.calls && Carries(s.calls[call], r) && call in Apply(s, e).calls
    ensures Carries(Apply(s, e).calls[call], r)
  {
    if e == GuardStep(call) && PlanAuthorized(s.db, s.calls[call].may, r).Ok? {
      PlanConcerns(s.db, s.calls[call].may, r);
    }
  }

  lemma NewInFlight(s: State, e: Event, call: nat)
    requires Enabled(s, e) && call !in s.calls && call in Apply(s, e).calls
    ensures e.AuthorizeStep? && e.call == call && IsActive(s.db, e.request.actor) && MaySend(s.db, e.request)
    ensures Carries(Apply(s, e).calls[call], e.request)
  {
    if e.AuthorizeStep? {
      AuthorizedIff(s.db, e.request);
    }
  }

  /** Whatever a call is about to do, it was authorised to do by an earlier step. */
  lemma {:induction false} FlightsWereAuthorized(s: State, run: seq<Event>, call: nat)
    requires ValidRun(s, run) && s.calls == map[] && call in Exec(s, run).calls
    ensures exists k: nat, r :: AuthorizedAt(s, run, k, call, r) && Carries(Exec(s, run).calls[call], r)
    decreases |run|
  {
    if run != [] {
      var n := |run| - 1;
      LastStep(s, run);
      var before := Exec(s, run[..n]);
      if call in before.calls {
        FlightsWereAuthorized(s, run[..n], call);
        var k: nat, r :| AuthorizedAt(s, run[..n], k, call, r) && Carries(before.calls[call], r);
        assert run[..n][..k] == run[..k];
        StepCarries(before, run[n], call, r);
        assert AuthorizedAt(s, run, k, call, r);
      } else {
        NewInFlight(before, run[n], call);
        assert AuthorizedAt(s, run, n, call, run[n].request);
      }
    }
  }

  /** However requests interleave, apart from sign-ups the tables change only by the commit of a request
      whose actor was active, and granted what the request needs, when it was authorised. */
  lemma ChangesWereAuthorized(s: State, run: seq<Event>, e: Event)
    requires Start(s) && ValidRun(s, run) && Enabled(Exec(s, run), e) && !e.SignUpStep?
    requires Apply(Exec(s, run), e).db != Exec(s, run).db
    ensures e.CommitStep?
    ensures exists k: nat, r :: AuthorizedAt(s, run, k, e.call, r) && Concerns(Exec(s, run).calls[e.call].tx, r)
  {
    FlightsWereAuthorized(s, run, e.call);
    var k: nat, r :| AuthorizedAt(s, run, k, e.call, r) && Carries(Exec(s, run).calls[e.call], r);
    assert Concerns(Exec(s, run).calls[e.call].tx, r);
  }

  // ----- When an active administrator remains -----

  /** The commit finds another active administrator than its target, or leaves its target one. */
  ghost predicate SparesAnAdmin(db: Db, tx: Tx) {
    tx.UpdateUserTx? && tx.target in db.active ==> OtherAdminExists(db, tx.target) || LeavesAdmin(db, tx.target, tx.update)
  }

  /** Every commit of the run that goes through does so. */
  ghost predicate CommitsSpare(s: State, run: seq<Event>)
    requires ValidRun(s, run)
    decreases |run|
  {
    run == [] || (
      && (run[0].CommitStep? && Commit(s.db, s.calls[run[0].call].tx).Ok? ==> SparesAnAdmin(s.db, s.calls[run[0].call].tx))
      && CommitsSpare(Apply(s, run[0]), run[1..]))
  }

  /** There is an active administrator after every step of the run. */
  ghost predicate AdminThroughout(s: State, run: seq<Event>)
    requires ValidRun(s, run)
    decreases |run|
  {
    AdminExists(s.db) && (run == [] || AdminThroughout(Apply(s, run[0]), run[1..]))
  }

  lemma StepKeepsAdminIff(s: State, e: Event)
    requires Inv(s) && Enabled(s, e) && AdminExists(s.db)
    ensures AdminExists(Apply(s, e).db) <==>
      (e.CommitStep? && Commit(s.db, s.calls[e.call].tx).Ok? ==> SparesAnAdmin(s.db, s.calls[e.call].tx))
  {
    var admin :| IsActiveAdmin(s.db, admin);
    match e
    case SignUpStep(user) =>
      SignUpKeepsSound(s.db, user);
      assert IsActiveAdmin(Apply(s, e).db, admin);
    case CommitStep(call) =>
      assert PhaseOk(s, call);
      var tx := s.calls[call].tx;
      if tx.UpdateUserTx? && Commit(s.db, tx).Ok? {
        AdminRemainsIff(s.db, tx.target, tx.update);
      } else if Commit(s.db, tx).Ok? {
        RoleTxKeepsAdmins(s.db, tx);
        assert IsActiveAdmin(Apply(s, e).db, admin);
      }
    case _ =>
  }

  lemma {:induction false} AdminThroughoutIffFrom(s: State, run: seq<Event>)
    requires Inv(s) && AdminExists(s.db) && ValidRun(s, run)
    ensures AdminThroughout(s, run) <==> CommitsSpare(s, run)
    decreases |run|
  {
    if run != [] {
      StepKeepsInv(s, run[0]);
      StepKeepsAdminIff(s, run[0]);
      if AdminExists(Apply(s, run[0]).db) {
        AdminThroughoutIffFrom(Apply(s, run[0]), run[1..]);
      }
    }
  }

  /** However requests interleave, an active administrator remains throughout exactly when every update
      that commits finds another one than its target or leaves its target one. */
  lemma AdminThroughoutIff(s: State, run: seq<Event>)
    requires Start(s) && ValidRun(s, run)
    ensures AdminThroughout(s, run) <==> CommitsSpare(s, run)
  {
    StartIsOk(s);
    AdminThroughoutIffFrom(s, run);
  }

  /** Every update that commits on an active administrator comes from one that still is. */
  ghost predicate ActorsAreStillAdmins(s: State, run: seq<Event>)
    requires ValidRun(s, run)
    decreases |run|
  {
    run == [] || (
      && (run[0].CommitStep? && s.calls[run[0].call].tx.UpdateUserTx? ==>
           var tx := s.calls[run[0].call].tx; (IsActiveAdmin(s.db, tx.target) ==> IsActiveAdmin(s.db, tx.actor)))
      && ActorsAreStillAdmins(Apply(s, run[0]), run[1..]))
  }

  lemma {:induction false} StillAdminsSpare(s: State, run: seq<Event>)
    requires Inv(s) && AdminExists(s.db) && ValidRun(s, run) && ActorsAreStillAdmins(s, run)
    ensures CommitsSpare(s, run)
    decreases |run|
  {
    if run != [] {
      var e := run[0];
      StepKeepsInv(s, e);
      if e.CommitStep? {
        assert PhaseOk(s, e.call);
        var tx, admin :| tx == s.calls[e.call].tx && IsActiveAdmin(s.db, admin);
        assert tx.UpdateUserTx? ==> IsActiveAdmin(s.db, if admin == tx.target then tx.actor else admin);
      }
      StepKeepsAdminIff(s, e);
      StillAdminsSpare(Apply(s, e), run[1..]);
    }
  }

  /** So it is enough that whoever changes an administrator is still an active administrator at the
      commit. */
  lemma AdminRemainsWhileActorsAreAdmins(s: State, run: seq<Event>)
    requires Start(s) && ValidRun(s, run) && ActorsAreStillAdmins(s, run)
    ensures AdminThroughout(s, run)
  {
    StartIsOk(s);
    StillAdminsSpare(s, run);
    AdminThroughoutIff(s, run);
  }

  // ----- The condition can fail -----

  const DISABLE := UserChange(Some(DisabledStatus), None, NO_FIELDS)

  /** Two calls, each authorised and checked before either commits. */
  function Crossed(a: User, b: User): seq<Event> {
    Arrivals(a, b) + (GUARDS + COMMITS)
  }

  function Arrivals(a: User, b: User): seq<Event> {
    [AuthorizeStep(0, UpdateUserRequest(a, b, DISABLE)), AuthorizeStep(1, UpdateUserRequest(b, a, DISABLE))]
  }

  const GUARDS := [GuardStep(0), GuardStep(1)]
  const COMMITS := [CommitStep(0), CommitStep(1)]

  lemma RunOne(s: State, e: Event, rest: seq<Event>)
    requires Enabled(s, e)
    ensures ValidRun(s, [e] + rest) <==> ValidRun(Apply(s, e), rest)
    ensures ValidRun(Apply(s, e), rest) ==> Exec(s, [e] + rest) == Exec(Apply(s, e), rest)
  {
    assert ([e] + rest)[1..] == rest;
  }

  lemma RunTwo(s: State, e: Event, next: Event)
    requires Enabled(s, e) && Enabled(Apply(s, e), next)
    ensures ValidRun(s, [e, next]) && Exec(s, [e, next]) == Apply(Apply(s, e), next)
  {
    RunOne(Apply(s, e), next, []);
    RunOne(s, e, [next]);
  }

  const OFF := UserUpdate(Some(false), None, NO_FIELDS)

  lemma AdminIsAuthorized(s: State, call: nat, a: User, b: User)
    requires Sound(s.db) && IsActiveAdmin(s.db, a) && call !in s.calls && call !in s.wasAdmin
    ensures var request := UpdateUserRequest(a, b, DISABLE);
      && Enabled(s, AuthorizeStep(call, request))
      && Apply(s, AuthorizeStep(call, request)) ==
           s.(calls := s.calls[call := Authorized(request, true)], wasAdmin := s.wasAdmin + {call})
  {
    GrantingIsAdmin(s.db, a);
  }

  lemma AdminPlansDisable(s: State, call: nat, a: User, b: User)
    requires call in s.calls && s.calls[call] == Authorized(UpdateUserRequest(a, b, DISABLE), true)
    requires a != b && b in s.db.active
    ensures Enabled(s, GuardStep(call))
    ensures Apply(s, GuardStep(call)) == s.(calls := s.calls[call := Planned(UpdateUserTx(a, b, OFF, true))])
  {
    assert PlanUpdateUser(s.db, true, a, b, DISABLE) == Ok(UpdateUserTx(a, b, OFF, true));
  }

  /** Both authorised, and then both past their guards, before either commits. */
  function BothAuthorized(s: State, a: User, b: User): State {
    s.(calls := map[0 := Authorized(UpdateUserRequest(a, b, DISABLE), true),
                    1 := Authorized(UpdateUserRequest(b, a, DISABLE), true)],
       wasAdmin := s.wasAdmin + {0, 1})
  }

  function BothPlanned(s: State, a: User, b: User): State {
    s.(calls := map[0 := Planned(UpdateUserTx(a, b, OFF, true)), 1 := Planned(UpdateUserTx(b, a, OFF, true))],
       wasAdmin := s.wasAdmin + {0, 1})
  }

  lemma BothAreAuthorized(s: State, a: User, b: User)
    requires Sound(s.db) && s.calls == map[] && 0 !in s.wasAdmin && 1 !in s.wasAdmin && a != b
    requires IsActiveAdmin(s.db, a) && IsActiveAdmin(s.db, b)
    ensures ValidRun(s, Arrivals(a, b)) && Exec(s, Arrivals(a, b)) == BothAuthorized(s, a, b)
  {
    var run := Arrivals(a, b);
    AdminIsAuthorized(s, 0, a, b);
    var t := s.(calls := s.calls[0 := Authorized(UpdateUserRequest(a, b, DISABLE), true)], wasAdmin := s.wasAdmin + {0});
    AdminIsAuthorized(t, 1, b, a);
    assert t.wasAdmin + {1} == s.wasAdmin + {0, 1};
    RunTwo(s, run[0], run[1]);
  }

  lemma BothArePlanned(s: State, a: User, b: User)
    requires a != b && a in s.db.active && b in s.db.active
    ensures ValidRun(BothAuthorized(s, a, b), GUARDS)
    ensures Exec(BothAuthorized(s, a, b), GUARDS) == BothPlanned(s, a, b)
  {
    var t := BothAuthorized(s, a, b);
    AdminPlansDisable(t, 0, a, b);
    AdminPlansDisable(Apply(t, GuardStep(0)), 1, b, a);
    RunTwo(t, GuardStep(0), GuardStep(1));
  }

  lemma BothDisabled(db: Db, a: User, b: User)
    requires a in db.active && b in db.active && forall user :: IsActiveAdmin(db, user) ==> user == a || user == b
    ensures UpdateUserOnTx(db, b, OFF).Ok? && UpdateUserOnTx(UpdateUserOnTx(db, b, OFF).value, a, OFF).Ok?
    ensures !AdminExists(UpdateUserOnTx(UpdateUserOnTx(db, b, OFF).value, a, OFF).value)
  {
    var first := UpdateUserOnTx(db, b, OFF).value;
    forall user ensures !IsActiveAdmin(UpdateUserOnTx(first, a, OFF).value, user) {
      assert IsActiveAdmin(UpdateUserOnTx(first, a, OFF).value, user) ==> IsActiveAdmin(db, user);
    }
  }

  lemma BothCommit(s: State, a: User, b: User)
    requires a in s.db.active && b in s.db.active && forall user :: IsActiveAdmin(s.db, user) ==> user == a || user == b
    ensures ValidRun(BothPlanned(s, a, b), COMMITS) && !AdminExists(Exec(BothPlanned(s, a, b), COMMITS).db)
  {
    BothDisabled(s.db, a, b);
    RunTwo(BothPlanned(s, a, b), CommitStep(0), CommitStep(1));
  }

  lemma Tail(run: seq<Event>, rest: seq<Event>)
    requires run != []
    ensures (run + rest)[0] == run[0] && (run + rest)[1..] == run[1..] + rest
  {
  }

  lemma {:induction false} RunSplits(s: State, run: seq<Event>, rest: seq<Event>)
    requires ValidRun(s, run) && ValidRun(Exec(s, run), rest)
    ensures ValidRun(s, run + rest) && Exec(s, run + rest) == Exec(Exec(s, run), rest)
    decreases |run|
  {
    if run == [] {
      assert run + rest == rest;
    } else {
      Tail(run, rest);
      RunSplits(Apply(s, run[0]), run[1..], rest);
    }
  }

  /** From any tables with two active administrators, they can disable each other; if there were no
      others, none is left. */
  lemma AdminsCanDisableEachOther(s: State, a: User, b: User)
    requires Sound(s.db) && s.calls == map[] && 0 !in s.wasAdmin && 1 !in s.wasAdmin && a != b
    requires forall user :: IsActiveAdmin(s.db, user) <==> user == a || user == b
    ensures ValidRun(s, Crossed(a, b)) && !AdminExists(Exec(s, Crossed(a, b)).db)
  {
    assert IsActiveAdmin(s.db, a) && IsActiveAdmin(s.db, b);
    BothAreAuthorized(s, a, b);
    BothArePlanned(s, a, b);
    BothCommit(s, a, b);
    RunSplits(BothAuthorized(s, a, b), GUARDS, COMMITS);
    RunSplits(s, Arrivals(a, b), GUARDS + COMMITS);
  }

  lemma PlanIsAuthorized(db: Db, request: Request)
    requires Plan(db, request).Ok?
    ensures Authorize(db, request.actor, request.Needs()).None?
    ensures PlanAuthorized(db, MayGrantAdmin(db, request.actor), request) == Plan(db, request)
  {
  }

  lemma AuthorizeApplies(s: State, call: nat, request: Request)
    requires call !in s.calls && call !in s.wasAdmin && Authorize(s.db, request.actor, request.Needs()).None?
    ensures Enabled(s, AuthorizeStep(call, request))
    ensures var t := Apply(s, AuthorizeStep(call, request));
      && t.db == s.db && t.calls == s.calls[call := Authorized(request, MayGrantAdmin(s.db, request.actor))]
      && t.wasAdmin <= s.wasAdmin + {call}
  {
  }

  lemma GuardApplies(s: State, call: nat)
    requires call in s.calls && s.calls[call].Authorized?
    requires PlanAuthorized(s.db, s.calls[call].may, s.calls[call].request).Ok?
    ensures Enabled(s, GuardStep(call))
    ensures var Authorized(request, may) := s.calls[call];
      Apply(s, GuardStep(call)) == s.(calls := s.calls[call := Planned(PlanAuthorized(s.db, may, request).value)])
  {
  }

  lemma AtOnceIsPlan(s: State, call: nat, request: Request)
    requires call !in s.calls && call !in s.wasAdmin && Plan(s.db, request).Ok?
    ensures var run := [AuthorizeStep(call, request), GuardStep(call)];
      && ValidRun(s, run) && Exec(s, run).db == s.db
      && Exec(s, run).calls == s.calls[call := Planned(Plan(s.db, request).value)]
      && Exec(s, run).wasAdmin <= s.wasAdmin + {call}
  {
    PlanIsAuthorized(s.db, request);
    AuthorizeApplies(s, call, request);
    GuardApplies(Apply(s, AuthorizeStep(call, request)), call);
    RunTwo(s, AuthorizeStep(call, request), GuardStep(call));
  }

  lemma CommitIsLast(s: State, call: nat, before: map<nat, Phase>, tx: Tx)
    requires call !in before && s.calls == before[call := Planned(tx)] && (tx.CreateTx? ==> tx.id !in s.db.roles)
    ensures var run := [CommitStep(call)];
      && ValidRun(s, run) && Exec(s, run).calls == before && Exec(s, run).wasAdmin == s.wasAdmin
      && Exec(s, run).db == (match Commit(s.db, tx) case Ok(db) => db case Err(_) => s.db)
  {
    RunOne(s, CommitStep(call), []);
    assert s.calls - {call} == before;
  }

  lemma CreatePlansItsId(db: Db, request: Request)
    requires Plan(db, request).Ok? && Plan(db, request).value.CreateTx?
    ensures request.CreateRoleRequest? && Plan(db, request).value.id == request.id
  {
  }

  /** With its three steps taken at once, a call does what the atomic request does. */
  lemma AtOnceIsHandle(s: State, call: nat, request: Request)
    requires call !in s.calls && call !in s.wasAdmin && Plan(s.db, request).Ok?
    requires request.CreateRoleRequest? ==> request.id !in s.db.roles
    ensures var run := [AuthorizeStep(call, request), GuardStep(call)] + [CommitStep(call)];
      && ValidRun(s, run)
      && Exec(s, run).db == (match Handle(s.db, request) case Ok(db) => db case Err(_) => s.db)
      && Exec(s, run).calls == s.calls && Exec(s, run).wasAdmin <= s.wasAdmin + {call}
  {
    var first, tx := [AuthorizeStep(call, request), GuardStep(call)], Plan(s.db, request).value;
    AtOnceIsPlan(s, call, request);
    if tx.CreateTx? {
      CreatePlansItsId(s.db, request);
    }
    CommitIsLast(Exec(s, first), call, s.calls, tx);
    RunSplits(s, first, [CommitStep(call)]);
  }

  // ----- The tables it fails from are reachable -----

  const PROMOTE := UserChange(None, Some([Some(ADMIN)]), NO_FIELDS)
  const PROMOTED := UserUpdate(None, Some([ADMIN]), NO_FIELDS)

  lemma PromotionIsParsed()
    ensures ParsedRoles(PROMOTE.roles) == Ok(Some([ADMIN]))
  {
    var raw: seq<RawRoleId> := [Some(ADMIN)];
    assert raw[..0] == [] && raw[..|raw| - 1] == [];
    assert Values(raw) == [] + [ADMIN] == [ADMIN];
    DedupLast([], ADMIN);
    assert [] + [ADMIN] == [ADMIN];
  }

  lemma PlanWhenAllIsWell(db: Db, actor: User, target: User, change: UserChange, update: UserUpdate)
    requires actor != target && target in db.active && change.roles.Some?
    requires ParsedStatus(change.status) == Ok(update.active) && ParsedRoles(change.roles) == Ok(update.ids)
    requires NormalizedFields(change.profile) == Ok(update.profile)
    ensures PlanUpdateUser(db, true, actor, target, change) == Ok(UpdateUserTx(actor, target, update, true))
  {
  }

  lemma AdminMayUpdate(db: Db, a: User)
    requires Sound(db) && IsActiveAdmin(db, a)
    ensures Authorize(db, a, "users:manage").None? && MayGrantAdmin(db, a)
  {
    GrantingIsAdmin(db, a);
  }

  lemma PlanIsGuarded(db: Db, request: Request)
    requires request.UpdateUserRequest? && Authorize(db, request.actor, "users:manage").None? && MayGrantAdmin(db, request.actor)
    ensures Plan(db, request) == PlanUpdateUser(db, true, request.actor, request.target, request.userChange)
  {
  }

  lemma AdminPlansPromotion(db: Db, a: User, b: User)
    requires Sound(db) && IsActiveAdmin(db, a) && b in db.active && a != b
    ensures Plan(db, UpdateUserRequest(a, b, PROMOTE)) == Ok(UpdateUserTx(a, b, PROMOTED, true))
  {
    AdminMayUpdate(db, a);
    PlanIsGuarded(db, UpdateUserRequest(a, b, PROMOTE));
    PromotionIsParsed();
    PlanWhenAllIsWell(db, a, b, PROMOTE, PROMOTED);
  }

  lemma PromotionCommits(db: Db, a: User, b: User)
    requires Sound(db) && b in db.active && a != b
    requires forall user :: IsActiveAdmin(db, user) <==> user == a
    ensures UpdateUserOnTx(db, b, PROMOTED).Ok?
    ensures db.active[b] ==>
      forall user :: IsActiveAdmin(UpdateUserOnTx(db, b, PROMOTED).value, user) <==> user == a || user == b
  {
    CountMatchesIffAllExist(db, [ADMIN]);
    TargetIsAdminIff(db, b, PROMOTED);
    forall user | user != b ensures IsActiveAdmin(UpdateUserOnTx(db, b, PROMOTED).value, user) <==> user == a {
      OthersStayAsTheyAre(db, b, PROMOTED, user);
    }
  }

  lemma SignedUpIsPlain(s: State, a: User, b: User)
    requires Start(s) && a in s.db.active && b !in s.db.active
    ensures var t := Apply(s, SignUpStep(b));
      && Sound(t.db) && t.calls == map[] && t.wasAdmin == {} && b in t.db.active && t.db.active[b]
      && forall user :: IsActiveAdmin(t.db, user) <==> user == a
  {
    StartIsOk(s);
    RoleNamedUser(s.db);
    SignUpKeepsSound(s.db, b);
    assert IsActiveAdmin(s.db, a);
  }

  ghost predicate OnlyAdmins(db: Db, a: User, b: User) {
    forall user :: IsActiveAdmin(db, user) <==> user == a || user == b
  }

  /** The administrator asks for an active user to be one too. */
  lemma PromotionSucceeds(db: Db, a: User, b: User) returns (request: Request, next: Db)
    requires Sound(db) && a != b && b in db.active && db.active[b]
    requires forall user :: IsActiveAdmin(db, user) <==> user == a
    ensures !request.CreateRoleRequest? && request.actor == a
    ensures Plan(db, request).Ok? && Handle(db, request) == Ok(next) && Sound(next) && OnlyAdmins(next, a, b)
  {
    assert IsActiveAdmin(db, a);
    var tx;
    request, tx := PromotionPlan(db, a, b);
    PromotionCommits(db, a, b);
    UserUpdateKeepsSound(db, b, PROMOTED);
    next := UpdateUserOnTx(db, b, PROMOTED).value;
    HandleCommits(db, request, tx);
  }

  lemma PromotionPlan(db: Db, a: User, b: User) returns (request: Request, tx: Tx)
    requires Sound(db) && IsActiveAdmin(db, a) && b in db.active && a != b
    ensures !request.CreateRoleRequest? && request.actor == a && Plan(db, request) == Ok(tx)
    ensures Commit(db, tx) == UpdateUserOnTx(db, b, PROMOTED)
  {
    AdminPlansPromotion(db, a, b);
    request, tx := UpdateUserRequest(a, b, PROMOTE), UpdateUserTx(a, b, PROMOTED, true);
  }

  lemma HandleCommits(db: Db, request: Request, tx: Tx)
    requires Plan(db, request) == Ok(tx)
    ensures Handle(db, request) == Commit(db, tx)
  {
  }

  /** Somebody signs up and is promoted. */
  lemma TwoAdminsAreReachable(s: State, a: User, b: User) returns (run: seq<Event>)
    requires Start(s) && a in s.db.active && b !in s.db.active
    ensures ValidRun(s, run)
    ensures var t := Exec(s, run);
      Sound(t.db) && t.calls == map[] && t.wasAdmin <= {2} && OnlyAdmins(t.db, a, b)
  {
    SignedUpIsPlain(s, a, b);
    var t := Apply(s, SignUpStep(b));
    var request, next := PromotionSucceeds(t.db, a, b);
    AtOnceIsHandle(t, 2, request);
    var promotion := [AuthorizeStep(2, request), GuardStep(2)] + [CommitStep(2)];
    RunOne(s, SignUpStep(b), promotion);
    run := [SignUpStep(b)] + promotion;
  }

  /** So from the migrated tables with the seeded administrator, for every second user, some run leaves
      nobody who can administer. */
  lemma NobodyMayBeLeft(s: State, a: User, b: User)
    requires Start(s) && a in s.db.active && b !in s.db.active
    ensures exists run :: ValidRun(s, run) && !AdminExists(Exec(s, run).db)
  {
    var promoted := TwoAdminsAreReachable(s, a, b);
    AdminsCanDisableEachOther(Exec(s, promoted), a, b);
    RunSplits(s, promoted, Crossed(a, b));
  }
}
