/**
 Roles, permissions and role assignments: the guards a management request passes, the transaction it
 then commits, and what holds in every run of requests when each is one atomic step.
 */
module Rbac {
  import opened Permissions
  import opened Sequences
  import opened Text
  import opened Wrappers

  type User = nat
  type RoleId = nat

  /** The seeded roles. */
  const ADMIN: RoleId := 0xa0001
  const USER: RoleId := 0xa0002

  const MAX_NAME_LENGTH := 50
  const MAX_DESCRIPTION_LENGTH := 280
  const MAX_PROFILE_FIELD_LENGTH := 256
  const MAX_AVATAR_FIELD_LENGTH := 256 * 1024

  datatype Role = Role(name: string, description: string, isSystem: bool)

  datatype Profile = Profile(avatarUrl: string, phone: string, jobTitle: string, company: string)

  const NO_PROFILE := Profile("", "", "", "")

  /** users.status, the profile columns, roles, role_permissions and user_roles. */
  datatype Db = Db(
    active: map<User, bool>, profiles: map<User, Profile>,
    roles: map<RoleId, Role>, grants: set<(RoleId, string)>, assignments: set<(User, RoleId)>)

  datatype Error =
    | Unauthorized | Forbidden | InvalidInput | NotFound | InsufficientPrivilege | SelfModification
    | NameConflict | RoleInUse | SystemRole | StoreFailed

  function RolesOf(db: Db, user: User): set<RoleId> {
    set pair | pair in db.assignments && pair.0 == user :: pair.1
  }

  function RoleNames(db: Db, user: User): set<string> {
    set pair | pair in db.assignments && pair.0 == user && pair.1 in db.roles :: db.roles[pair.1].name
  }

  /** SELECT DISTINCT permission over the user's roles. */
  function PermissionsOf(db: Db, user: User): set<string> {
    set pair, grant | pair in db.assignments && grant in db.grants && pair.0 == user && grant.0 == pair.1 :: grant.1
  }

  // ----- Statements -----

  /** The rows a user has after the insert and the delete of one statement, which both look at the
      rows there were before it. */
  function ReplaceUserRoles(db: Db, user: User, ids: seq<RoleId>): Db {
    var snapshot := db.assignments;
    var added := set id | id in ids && (user, id) !in snapshot :: (user, id);
    var deleted := set pair | pair in snapshot && pair.0 == user && pair.1 !in ids;
    db.(assignments := snapshot + added - deleted)
  }

  /** That statement is plain replacement. */
  lemma ReplaceUserRolesReplaces(db: Db, user: User, ids: seq<RoleId>, other: User)
    ensures RolesOf(ReplaceUserRoles(db, user, ids), other) == if other == user then Members(ids) else RolesOf(db, other)
  {
    var next := ReplaceUserRoles(db, user, ids);
    forall id ensures id in RolesOf(next, other) <==> id in if other == user then Members(ids) else RolesOf(db, other) {
      assert (other, id) in next.assignments <==> if other == user then id in ids else (other, id) in db.assignments;
    }
  }

  function ReplaceRolePermissions(db: Db, role: RoleId, permissions: seq<string>): Db {
    var snapshot := db.grants;
    var added := set p | p in permissions && (role, p) !in snapshot :: (role, p);
    var deleted := set grant | grant in snapshot && grant.0 == role && grant.1 !in permissions;
    db.(grants := snapshot + added - deleted)
  }

  lemma ReplaceRolePermissionsReplaces(db: Db, role: RoleId, permissions: seq<string>, other: RoleId, p: string)
    ensures (other, p) in ReplaceRolePermissions(db, role, permissions).grants <==>
      if other == role then p in permissions else (other, p) in db.grants
  {
  }

  function RolesByIds(db: Db, ids: seq<RoleId>): set<RoleId> {
    set id | id in db.roles && id in ids
  }

  /** Counting the roles that exist finds as many as were asked for exactly when all exist. */
  lemma CountMatchesIffAllExist(db: Db, ids: seq<RoleId>)
    requires Distinct(ids)
    ensures |RolesByIds(db, ids)| == |ids| <==> forall id :: id in ids ==> id in db.roles
  {
    DistinctSize(ids);
    var found := RolesByIds(db, ids);
    assert found <= Members(ids);
    if |found| == |ids| {
      SubsetOfSameSize(found, Members(ids));
      forall id | id in ids ensures id in db.roles {
        assert id in Members(ids);
      }
    }
    if forall id :: id in ids ==> id in db.roles {
      assert found == Members(ids);
    }
  }

  lemma SubsetOfSameSize<T>(a: set<T>, b: set<T>)
    requires a <= b && |a| == |b|
    ensures a == b
  {
    assert |b - a| == |b| - |a|;
  }

  // ----- Transactions -----

  /** Profile columns as a request gives them; None is left unchanged. */
  datatype ProfileFields = ProfileFields(
    avatarUrl: Option<string>, phone: Option<string>, jobTitle: Option<string>, company: Option<string>)

  const NO_FIELDS := ProfileFields(None, None, None, None)

  /** An update of a user, checked and normalised. */
  datatype UserUpdate = UserUpdate(active: Option<bool>, ids: Option<seq<RoleId>>, profile: ProfileFields)

  /** What the request changes about a role; None is left unchanged. */
  datatype RoleChange = RoleChange(name: Option<string>, description: Option<string>, permissions: Option<seq<string>>)

  function Coalesce<T>(value: Option<T>, column: T): T {
    if value.Some? then value.value else column
  }

  function MergedProfile(p: Profile, fields: ProfileFields): Profile {
    Profile(Coalesce(fields.avatarUrl, p.avatarUrl), Coalesce(fields.phone, p.phone),
            Coalesce(fields.jobTitle, p.jobTitle), Coalesce(fields.company, p.company))
  }

  function ProfileOf(db: Db, user: User): Profile {
    if user in db.profiles then db.profiles[user] else NO_PROFILE
  }

  /** UPDATE users SET status = COALESCE(...), ... */
  function UpdateUserFields(db: Db, target: User, active: Option<bool>, fields: ProfileFields): Db
    requires target in db.active
  {
    db.(active := db.active[target := Coalesce(active, db.active[target])],
        profiles := db.profiles[target := MergedProfile(ProfileOf(db, target), fields)])
  }

  /** The transaction of an update: every check before every write counts, an error undoes all. */
  function UpdateUserOnTx(db: Db, target: User, update: UserUpdate): Result<Db, Error> {
    if target !in db.active then Err(NotFound)
    else
      var updated :=
        if update.active.Some? || update.profile != NO_FIELDS then UpdateUserFields(db, target, update.active, update.profile)
        else db;
      if update.ids.None? then Ok(updated)
      else if |RolesByIds(updated, update.ids.value)| != |update.ids.value| then Err(InvalidInput)
      else Ok(ReplaceUserRoles(updated, target, update.ids.value))
  }

  /** UNIQUE (name) refuses the name. */
  predicate NameTaken(db: Db, id: RoleId, name: string) {
    exists other :: other in db.roles && other != id && db.roles[other].name == name
  }

  function CreateRoleOnTx(db: Db, id: RoleId, name: string, description: string, permissions: seq<string>): Result<Db, Error> {
    if id in db.roles then Err(StoreFailed)
    else if NameTaken(db, id, name) then Err(NameConflict)
    else
      Ok(db.(roles := db.roles[id := Role(name, description, false)],
             grants := db.grants + set p | p in permissions :: (id, p)))
  }

  function UpdateRoleDetails(db: Db, id: RoleId, name: Option<string>, description: Option<string>): Db
    requires id in db.roles
  {
    var role := db.roles[id];
    db.(roles := db.roles[id :=
      role.(name := Coalesce(name, role.name), description := Coalesce(description, role.description))])
  }

  /** Permissions of a role deleted in the meantime violate their foreign key; without any, it is not found
      when it is read back. Either way everything is undone. */
  function UpdateRoleOnTx(db: Db, id: RoleId, change: RoleChange): Result<Db, Error> {
    if id !in db.roles then Err(if change.permissions.Some? && change.permissions.value != [] then StoreFailed else NotFound)
    else if change.name.Some? && NameTaken(db, id, change.name.value) then Err(NameConflict)
    else
      var renamed := UpdateRoleDetails(db, id, change.name, change.description);
      Ok(if change.permissions.Some? then ReplaceRolePermissions(renamed, id, change.permissions.value) else renamed)
  }

  /** The statement repeats the guards; a row it does not delete is reported as in use. Deleting a role
      deletes its permissions with it. */
  function DeleteRoleOnTx(db: Db, id: RoleId): Result<Db, Error> {
    if id !in db.roles || db.roles[id].isSystem || exists pair :: pair in db.assignments && pair.1 == id then Err(RoleInUse)
    else Ok(db.(roles := db.roles - {id}, grants := set grant | grant in db.grants && grant.0 != id))
  }

  ghost function RoleNamed(db: Db, name: string): Option<RoleId> {
    if id :| id in db.roles && db.roles[id].name == name then Some(id) else None
  }

  /** A new account is active and gets the role called user, or is not created. */
  ghost function SignUp(db: Db, user: User): Result<Db, Error> {
    match RoleNamed(db, "user")
    case None => Err(NotFound)
    case Some(role) =>
      Ok(db.(active := db.active[user := true], profiles := db.profiles[user := NO_PROFILE],
             assignments := db.assignments + {(user, role)}))
  }

  /** What a request that passed its guards goes on to commit; byAdmin is whether its actor could then
      grant the admin role. */
  datatype Tx =
    | CreateTx(id: RoleId, name: string, description: string, permissions: seq<string>)
    | UpdateRoleTx(id: RoleId, change: RoleChange)
    | DeleteTx(id: RoleId)
    | UpdateUserTx(actor: User, target: User, update: UserUpdate, byAdmin: bool)

  function Commit(db: Db, tx: Tx): Result<Db, Error> {
    match tx
    case CreateTx(id, name, description, permissions) => CreateRoleOnTx(db, id, name, description, permissions)
    case UpdateRoleTx(id, change) => UpdateRoleOnTx(db, id, change)
    case DeleteTx(id) => DeleteRoleOnTx(db, id)
    case UpdateUserTx(_, target, update, _) => UpdateUserOnTx(db, target, update)
  }

  // ----- Requests and their guards -----

  datatype StatusInput = ActiveStatus | DisabledStatus | UnknownStatus

  /** A role id as the request spells it: None when it is not a UUID. */
  type RawRoleId = Option<RoleId>

  datatype UserChange = UserChange(status: Option<StatusInput>, roles: Option<seq<RawRoleId>>, profile: ProfileFields)

  function ParsedRoleIds(raw: seq<RawRoleId>): Result<seq<RoleId>, Error> {
    if raw == [] || exists i :: 0 <= i < |raw| && raw[i].None? then Err(InvalidInput)
    else Ok(Dedup(Values(raw)))
  }

  function Values(raw: seq<RawRoleId>): seq<RoleId>
    requires forall i :: 0 <= i < |raw| ==> raw[i].Some?
  {
    if raw == [] then [] else Values(raw[..|raw| - 1]) + [raw[|raw| - 1].value]
  }

  /** The wildcard permission, or a role called admin. */
  predicate CanGrantAdmin(names: set<string>, permissions: set<string>) {
    Set(permissions).Has(ALL) || HasAdminRole(names)
  }

  predicate HasAdminRole(names: set<string>) {
    exists name :: name in names && TrimSpace(name) == "admin"
  }

  function ParsedStatus(status: Option<StatusInput>): Result<Option<bool>, Error> {
    match status
    case None => Ok(None)
    case Some(ActiveStatus) => Ok(Some(true))
    case Some(DisabledStatus) => Ok(Some(false))
    case Some(UnknownStatus) => Err(InvalidInput)
  }

  function ParsedRoles(roles: Option<seq<RawRoleId>>): Result<Option<seq<RoleId>>, Error> {
    if roles.None? then Ok(None)
    else match ParsedRoleIds(roles.value) case Err(e) => Err(e) case Ok(ids) => Ok(Some(ids))
  }

  /** A given field is trimmed and bounded in bytes; an empty one clears the column. */
  function NormalizedField(value: Option<string>, max: nat): Result<Option<string>, Error> {
    if value.None? then Ok(None)
    else if Utf8Length(TrimSpace(value.value)) > max then Err(InvalidInput)
    else Ok(Some(TrimSpace(value.value)))
  }

  function NormalizedFields(p: ProfileFields): Result<ProfileFields, Error> {
    var avatarUrl, phone := NormalizedField(p.avatarUrl, MAX_AVATAR_FIELD_LENGTH), NormalizedField(p.phone, MAX_PROFILE_FIELD_LENGTH);
    var jobTitle, company := NormalizedField(p.jobTitle, MAX_PROFILE_FIELD_LENGTH), NormalizedField(p.company, MAX_PROFILE_FIELD_LENGTH);
    if avatarUrl.Err? || phone.Err? || jobTitle.Err? || company.Err? then Err(InvalidInput)
    else Ok(ProfileFields(avatarUrl.value, phone.value, jobTitle.value, company.value))
  }

  /** may is whether the actor can grant the admin role, which was decided when it was authorised. */
  function PlanUpdateUser(db: Db, may: bool, actor: User, target: User, change: UserChange): Result<Tx, Error> {
    var active, ids, profile := ParsedStatus(change.status), ParsedRoles(change.roles), NormalizedFields(change.profile);
    if actor == target then Err(SelfModification)
    else if change.status.None? && change.roles.None? && change.profile == NO_FIELDS then Err(InvalidInput)
    else if active.Err? then Err(active.error)
    else if ids.Err? then Err(ids.error)
    else if ids.value.Some? && ADMIN in ids.value.value && !may then Err(InsufficientPrivilege)
    else if profile.Err? then Err(profile.error)
    else if target !in db.active then Err(NotFound)
    else if HasAdminRole(RoleNames(db, target)) && !may then Err(InsufficientPrivilege)
    else Ok(UpdateUserTx(actor, target, UserUpdate(active.value, ids.value, profile.value), may))
  }

  function NormalizedName(name: string): Result<string, Error> {
    var trimmed := TrimSpace(name);
    if trimmed == "" || |trimmed| > MAX_NAME_LENGTH then Err(InvalidInput) else Ok(trimmed)
  }

  function NormalizedDescription(description: string): Result<string, Error> {
    var trimmed := TrimSpace(description);
    if |trimmed| > MAX_DESCRIPTION_LENGTH then Err(InvalidInput) else Ok(trimmed)
  }

  function PlanCreateRole(id: RoleId, name: string, description: string, permissions: seq<string>): Result<Tx, Error> {
    var name, description, permissions := NormalizedName(name), NormalizedDescription(description), Normalized(permissions);
    if name.Err? || description.Err? || permissions.None? then Err(InvalidInput)
    else Ok(CreateTx(id, name.value, description.value, permissions.value))
  }

  function NormalizedChange(change: RoleChange): Result<RoleChange, Error> {
    if change.name.Some? && NormalizedName(change.name.value).Err? then Err(InvalidInput)
    else if change.description.Some? && NormalizedDescription(change.description.value).Err? then Err(InvalidInput)
    else if change.permissions.Some? && Normalized(change.permissions.value).None? then Err(InvalidInput)
    else Ok(RoleChange(
      if change.name.Some? then Some(NormalizedName(change.name.value).value) else None,
      if change.description.Some? then Some(NormalizedDescription(change.description.value).value) else None,
      if change.permissions.Some? then Some(Normalized(change.permissions.value).value) else None))
  }

  function PlanUpdateRole(db: Db, id: RoleId, change: RoleChange): Result<Tx, Error> {
    if change.name.None? && change.description.None? && change.permissions.None? then Err(InvalidInput)
    else if id !in db.roles then Err(NotFound)
    else if db.roles[id].isSystem then Err(SystemRole)
    else match NormalizedChange(change)
      case Err(e) => Err(e)
      case Ok(normalized) => Ok(UpdateRoleTx(id, normalized))
  }

  function PlanDeleteRole(db: Db, id: RoleId): Result<Tx, Error> {
    if id !in db.roles then Err(NotFound)
    else if db.roles[id].isSystem then Err(SystemRole)
    else if exists pair :: pair in db.assignments && pair.1 == id then Err(RoleInUse)
    else Ok(DeleteTx(id))
  }

  datatype Request =
    | CreateRoleRequest(actor: User, id: RoleId, name: string, description: string, permissions: seq<string>)
    | UpdateRoleRequest(actor: User, id: RoleId, change: RoleChange)
    | DeleteRoleRequest(actor: User, id: RoleId)
    | UpdateUserRequest(actor: User, target: User, userChange: UserChange)
  {
    /** The permission its endpoint asks for. */
    function Needs(): string {
      if UpdateUserRequest? then "users:manage" else "roles:manage"
    }
  }

  /** The actor exists, is not disabled and holds the permission. */
  function Authorize(db: Db, actor: User, permission: string): Option<Error> {
    if actor !in db.active || !db.active[actor] then Some(Unauthorized)
    else if !Set(PermissionsOf(db, actor)).Has(permission) then Some(Forbidden)
    else None
  }

  function MayGrantAdmin(db: Db, actor: User): bool {
    CanGrantAdmin(RoleNames(db, actor), PermissionsOf(db, actor))
  }

  /** The guards of an authorised request, on the tables it finds. */
  function PlanAuthorized(db: Db, may: bool, request: Request): Result<Tx, Error> {
    match request
    case CreateRoleRequest(_, id, name, description, permissions) => PlanCreateRole(id, name, description, permissions)
    case UpdateRoleRequest(_, id, change) => PlanUpdateRole(db, id, change)
    case DeleteRoleRequest(_, id) => PlanDeleteRole(db, id)
    case UpdateUserRequest(actor, target, change) => PlanUpdateUser(db, may, actor, target, change)
  }

  /** Authorisation and guards with nothing in between. */
  function Plan(db: Db, request: Request): Result<Tx, Error> {
    var denied := Authorize(db, request.actor, request.Needs());
    if denied.Some? then Err(denied.value) else PlanAuthorized(db, MayGrantAdmin(db, request.actor), request)
  }

  /** A request with nothing between its guards and its transaction. */
  function Handle(db: Db, request: Request): Result<Db, Error> {
    match Plan(db, request)
    case Err(e) => Err(e)
    case Ok(tx) => Commit(db, tx)
  }

  // ----- What every transaction keeps -----

  ghost predicate IsSeeded(db: Db) {
    && ADMIN in db.roles && db.roles[ADMIN].name == "admin" && db.roles[ADMIN].isSystem
    && USER in db.roles && db.roles[USER].name == "user" && db.roles[USER].isSystem
  }

  ghost predicate NamesOk(db: Db) {
    && (forall a, b :: a in db.roles && b in db.roles && db.roles[a].name == db.roles[b].name ==> a == b)
    && (forall id :: id in db.roles ==> IsTrimmed(db.roles[id].name))
  }

  ghost predicate GrantsOk(db: Db) {
    && (ADMIN, ALL) in db.grants
    && forall grant :: grant in db.grants ==> grant.0 in db.roles && (grant.1 == ALL ==> grant.0 == ADMIN)
  }

  /** Every stored permission is the wildcard or in the catalog. */
  ghost predicate GrantsInCatalog(db: Db) {
    forall grant :: grant in db.grants ==> grant.1 == ALL || grant.1 in CATALOG
  }

  ghost predicate AssignedOk(db: Db) {
    && (forall pair :: pair in db.assignments ==> pair.0 in db.active && pair.1 in db.roles)
    && (forall user :: user in db.active ==> RolesOf(db, user) != {})
  }

  ghost predicate IsAdmin(db: Db, user: User) {
    (user, ADMIN) in db.assignments
  }

  ghost predicate IsActiveAdmin(db: Db, user: User) {
    user in db.active && db.active[user] && IsAdmin(db, user)
  }

  ghost predicate AdminExists(db: Db) {
    exists user :: IsActiveAdmin(db, user)
  }

  /** What does not depend on requests being atomic. */
  ghost predicate Sound(db: Db) {
    IsSeeded(db) && NamesOk(db) && GrantsOk(db) && AssignedOk(db)
  }

  ghost predicate Inv(db: Db) {
    Sound(db) && AdminExists(db)
  }

  /** What the guards leave of a transaction, whatever happens to the tables before it commits. */
  ghost predicate TxOk(tx: Tx) {
    match tx
    case CreateTx(_, name, _, permissions) => IsTrimmed(name) && Assignable(permissions)
    case UpdateRoleTx(id, change) =>
      && id != ADMIN && id != USER && (change.name.Some? ==> IsTrimmed(change.name.value))
      && (change.permissions.Some? ==> Assignable(change.permissions.value))
    case DeleteTx(_) => true
    case UpdateUserTx(actor, target, update, byAdmin) =>
      actor != target && (update.ids.Some? ==> RoleListOk(update.ids.value) && (ADMIN in update.ids.value ==> byAdmin))
  }

  ghost predicate Assignable(permissions: seq<string>) {
    forall p :: p in permissions ==> p in CATALOG && p != ALL
  }

  ghost predicate RoleListOk(ids: seq<RoleId>) {
    ids != [] && Distinct(ids)
  }

  lemma CatalogLacksAll()
    ensures ALL !in CATALOG
  {
  }

  lemma AdminHasName(db: Db, user: User)
    requires IsSeeded(db) && NamesOk(db)
    ensures HasAdminRole(RoleNames(db, user)) <==> IsAdmin(db, user)
  {
    if IsAdmin(db, user) {
      assert (user, ADMIN) in db.assignments;
      assert "admin" in RoleNames(db, user);
    }
    if name :| name in RoleNames(db, user) && TrimSpace(name) == "admin" {
      var pair :| pair in db.assignments && pair.0 == user && pair.1 in db.roles && db.roles[pair.1].name == name;
      assert pair.1 == ADMIN;
    }
  }

  lemma AdminHasWildcard(db: Db, user: User)
    requires GrantsOk(db)
    ensures ALL in PermissionsOf(db, user) <==> IsAdmin(db, user)
  {
    if IsAdmin(db, user) {
      assert (user, ADMIN) in db.assignments && (ADMIN, ALL) in db.grants;
    }
    if ALL in PermissionsOf(db, user) {
      var pair, grant :| pair in db.assignments && grant in db.grants && pair.0 == user && grant.0 == pair.1 && grant.1 == ALL;
      assert grant == (ADMIN, ALL);
    }
  }

  /** Holding the wildcard, holding a role called admin, and holding the admin role are one thing. */
  lemma GrantingIsAdmin(db: Db, user: User)
    requires IsSeeded(db) && NamesOk(db) && GrantsOk(db)
    ensures CanGrantAdmin(RoleNames(db, user), PermissionsOf(db, user)) <==> IsAdmin(db, user)
    ensures HasAdminRole(RoleNames(db, user)) <==> IsAdmin(db, user)
    ensures Set(PermissionsOf(db, user)).Has(ALL) <==> IsAdmin(db, user)
  {
    AdminHasName(db, user);
    AdminHasWildcard(db, user);
  }

  lemma RoleNamedUser(db: Db)
    requires IsSeeded(db) && NamesOk(db)
    ensures RoleNamed(db, "user") == Some(USER)
  {
  }

  lemma NormalizedAreAssignable(raw: seq<string>)
    requires Normalized(raw).Some?
    ensures Distinct(Normalized(raw).value)
    ensures forall p :: p in Normalized(raw).value ==> p in CATALOG && p != ALL
  {
    CatalogLacksAll();
    var trimmed := Trimmed(raw);
    DedupKeepsMembers(trimmed);
    forall p | p in Dedup(trimmed) ensures p in CATALOG {
      assert p in Members(Dedup(trimmed));
      assert p in trimmed;
    }
  }

  lemma ParsedRoleIdsAre(raw: seq<RawRoleId>)
    requires ParsedRoleIds(raw).Ok?
    ensures var ids := ParsedRoleIds(raw).value;
      ids != [] && Distinct(ids) && forall id :: id in ids <==> Some(id) in raw
  {
    var ids := ParsedRoleIds(raw).value;
    DedupKeepsMembers(Values(raw));
    ValuesAre(raw);
    forall id ensures id in ids <==> Some(id) in raw {
      assert id in ids <==> id in Members(ids);
      assert id in Values(raw) <==> id in Members(Values(raw));
    }
    assert raw[0] == Some(raw[0].value);
  }

  lemma {:induction false} ValuesAre(raw: seq<RawRoleId>)
    requires forall i :: 0 <= i < |raw| ==> raw[i].Some?
    ensures forall id :: id in Values(raw) <==> Some(id) in raw
  {
    if raw != [] {
      var n := |raw| - 1;
      ValuesAre(raw[..n]);
      assert raw == raw[..n] + [raw[n]];
    }
  }

  lemma PlannedUpdateIsOk(db: Db, may: bool, actor: User, target: User, change: UserChange)
    requires Sound(db) && PlanUpdateUser(db, may, actor, target, change).Ok?
    ensures var tx := PlanUpdateUser(db, may, actor, target, change).value;
      && tx.UpdateUserTx? && TxOk(tx) && tx.actor == actor && tx.target == target
      && tx.byAdmin == may && (IsAdmin(db, target) ==> may)
  {
    GrantingIsAdmin(db, target);
    if change.roles.Some? {
      ParsedRoleIdsAre(change.roles.value);
    }
  }

  /** Whatever passes the guards is a sound transaction, and an update of an administrator needs an actor
      that could grant the role. */
  lemma PlannedIsOk(db: Db, may: bool, request: Request)
    requires Sound(db) && PlanAuthorized(db, may, request).Ok?
    ensures var tx := PlanAuthorized(db, may, request).value;
      && TxOk(tx) && (tx.UpdateUserTx? <==> request.UpdateUserRequest?)
      && (tx.UpdateUserTx? ==>
           && tx.actor == request.actor && tx.target == request.target && tx.byAdmin == may
           && (IsAdmin(db, tx.target) ==> may))
  {
    match request
    case CreateRoleRequest(_, _, _, _, permissions) => NormalizedAreAssignable(permissions);
    case UpdateRoleRequest(_, _, change) =>
      if change.permissions.Some? {
        NormalizedAreAssignable(change.permissions.value);
      }
    case DeleteRoleRequest(_, _) =>
    case UpdateUserRequest(actor, target, change) => PlannedUpdateIsOk(db, may, actor, target, change);
  }

  /** With nothing in between, the actor is then an active user, and an administrator if the target is. */
  lemma PlanIsOk(db: Db, request: Request)
    requires Sound(db) && Plan(db, request).Ok?
    ensures var tx := Plan(db, request).value;
      && TxOk(tx) && (tx.UpdateUserTx? <==> request.UpdateUserRequest?)
      && (tx.UpdateUserTx? ==>
           && tx.actor == request.actor && tx.target == request.target && tx.byAdmin == IsAdmin(db, tx.actor)
           && tx.actor in db.active && db.active[tx.actor] && (IsAdmin(db, tx.target) ==> IsAdmin(db, tx.actor)))
  {
    GrantingIsAdmin(db, request.actor);
    PlannedIsOk(db, MayGrantAdmin(db, request.actor), request);
  }

  lemma SignUpKeepsSound(db: Db, user: User)
    requires Sound(db) && user !in db.active
    ensures SignUp(db, user).Ok? && Sound(SignUp(db, user).value)
    ensures forall other :: IsActiveAdmin(db, other) ==> IsActiveAdmin(SignUp(db, user).value, other)
    ensures forall other :: IsAdmin(SignUp(db, user).value, other) ==> IsAdmin(db, other)
  {
    RoleNamedUser(db);
    var next := SignUp(db, user).value;
    forall other | other in next.active ensures RolesOf(next, other) != {} {
      if other == user {
        assert USER in RolesOf(next, user);
      } else {
        var id :| id in RolesOf(db, other);
        assert id in RolesOf(next, other);
      }
    }
  }

  /** Changes to roles and grants alone keep the assignments sound. */
  lemma RolesChangeKeepsAssigned(db: Db, next: Db)
    requires AssignedOk(db) && next.active == db.active && next.assignments == db.assignments
    requires forall pair :: pair in db.assignments ==> pair.1 in next.roles
    ensures AssignedOk(next)
  {
    forall user | user in next.active ensures RolesOf(next, user) != {} {
      assert RolesOf(next, user) == RolesOf(db, user);
    }
  }

  lemma CreateRoleKeepsSound(db: Db, id: RoleId, name: string, description: string, permissions: seq<string>)
    requires Sound(db) && IsTrimmed(name) && Assignable(permissions)
    requires CreateRoleOnTx(db, id, name, description, permissions).Ok?
    ensures Sound(CreateRoleOnTx(db, id, name, description, permissions).value)
  {
    var next := CreateRoleOnTx(db, id, name, description, permissions).value;
    RolesChangeKeepsAssigned(db, next);
    assert NamesOk(next);
    assert GrantsOk(next);
  }

  lemma RenameKeepsNames(db: Db, id: RoleId, name: Option<string>, description: Option<string>)
    requires IsSeeded(db) && NamesOk(db) && id in db.roles && id != ADMIN && id != USER
    requires name.Some? ==> IsTrimmed(name.value) && !NameTaken(db, id, name.value)
    ensures IsSeeded(UpdateRoleDetails(db, id, name, description)) && NamesOk(UpdateRoleDetails(db, id, name, description))
  {
  }

  lemma UpdateRoleKeepsSound(db: Db, id: RoleId, change: RoleChange)
    requires Sound(db) && TxOk(UpdateRoleTx(id, change)) && UpdateRoleOnTx(db, id, change).Ok?
    ensures Sound(UpdateRoleOnTx(db, id, change).value)
  {
    var next := UpdateRoleOnTx(db, id, change).value;
    RenameKeepsNames(db, id, change.name, change.description);
    assert next.roles == UpdateRoleDetails(db, id, change.name, change.description).roles;
    assert GrantsOk(next);
    RolesChangeKeepsAssigned(db, next);
  }

  lemma DeleteRoleKeepsSound(db: Db, id: RoleId)
    requires Sound(db) && DeleteRoleOnTx(db, id).Ok?
    ensures Sound(DeleteRoleOnTx(db, id).value)
  {
    var next := DeleteRoleOnTx(db, id).value;
    assert NamesOk(next) && GrantsOk(next);
    RolesChangeKeepsAssigned(db, next);
  }

  /** What an update of a user leaves: the target has exactly the roles asked for, all of which exist;
      everybody else keeps theirs; only the target's status and profile can change. */
  lemma UserUpdateIsExact(db: Db, target: User, update: UserUpdate, other: User)
    requires UpdateUserOnTx(db, target, update).Ok? && (update.ids.Some? ==> RoleListOk(update.ids.value))
    ensures var next := UpdateUserOnTx(db, target, update).value;
      && RolesOf(next, other) ==
           (if other == target && update.ids.Some? then Members(update.ids.value) else RolesOf(db, other))
      && (update.ids.Some? ==> forall id :: id in update.ids.value ==> id in db.roles)
      && target in db.active && next.active == db.active[target := Coalesce(update.active, db.active[target])]
      && (other != target ==> ProfileOf(next, other) == ProfileOf(db, other))
      && ProfileOf(next, target) == MergedProfile(ProfileOf(db, target), update.profile)
      && next.roles == db.roles && next.grants == db.grants
  {
    var updated :=
      if update.active.Some? || update.profile != NO_FIELDS then UpdateUserFields(db, target, update.active, update.profile)
      else db;
    assert RolesOf(updated, other) == RolesOf(db, other);
    if update.ids.Some? {
      CountMatchesIffAllExist(updated, update.ids.value);
      ReplaceUserRolesReplaces(updated, target, update.ids.value, other);
    }
  }

  lemma AdminByRoles(db: Db, user: User)
    ensures IsAdmin(db, user) <==> ADMIN in RolesOf(db, user)
  {
    if ADMIN in RolesOf(db, user) {
      var pair :| pair in db.assignments && pair.0 == user && pair.1 == ADMIN;
      assert pair == (user, ADMIN);
    }
  }

  lemma UserUpdateKeepsSound(db: Db, target: User, update: UserUpdate)
    requires Sound(db) && UpdateUserOnTx(db, target, update).Ok? && (update.ids.Some? ==> RoleListOk(update.ids.value))
    ensures Sound(UpdateUserOnTx(db, target, update).value)
  {
    var next := UpdateUserOnTx(db, target, update).value;
    UserUpdateIsExact(db, target, update, target);
    forall user | user in next.active ensures RolesOf(next, user) != {} {
      UserUpdateIsExact(db, target, update, user);
      assert user == target && update.ids.Some? ==> update.ids.value[0] in Members(update.ids.value);
    }
    forall pair | pair in next.assignments ensures pair.0 in next.active && pair.1 in next.roles {
      UserUpdateIsExact(db, target, update, pair.0);
      assert pair.1 in RolesOf(next, pair.0);
      assert pair.1 in RolesOf(db, pair.0) ==> (pair.0, pair.1) in db.assignments;
    }
    assert NamesOk(next) && GrantsOk(next);
  }

  /** Whenever it commits, a sound transaction leaves sound tables. */
  lemma CommitKeepsSound(db: Db, tx: Tx)
    requires Sound(db) && TxOk(tx) && Commit(db, tx).Ok?
    ensures Sound(Commit(db, tx).value)
  {
    match tx
    case CreateTx(id, name, description, permissions) => CreateRoleKeepsSound(db, id, name, description, permissions);
    case UpdateRoleTx(id, change) => UpdateRoleKeepsSound(db, id, change);
    case DeleteTx(id) => DeleteRoleKeepsSound(db, id);
    case UpdateUserTx(_, target, update, _) => UserUpdateKeepsSound(db, target, update);
  }

  lemma CommitKeepsCatalog(db: Db, tx: Tx)
    requires GrantsInCatalog(db) && TxOk(tx) && Commit(db, tx).Ok?
    ensures GrantsInCatalog(Commit(db, tx).value)
  {
    if tx.UpdateUserTx? {
      UserUpdateIsExact(db, tx.target, tx.update, tx.target);
    }
  }

  // ----- Administrators -----

  /** Role transactions touch no user. */
  lemma RoleTxKeepsUsers(db: Db, tx: Tx)
    requires !tx.UpdateUserTx? && Commit(db, tx).Ok?
    ensures Commit(db, tx).value.active == db.active && Commit(db, tx).value.assignments == db.assignments
  {
  }

  lemma OthersStayAsTheyAre(db: Db, target: User, update: UserUpdate, user: User)
    requires UpdateUserOnTx(db, target, update).Ok? && (update.ids.Some? ==> RoleListOk(update.ids.value)) && user != target
    ensures IsAdmin(UpdateUserOnTx(db, target, update).value, user) <==> IsAdmin(db, user)
    ensures IsActiveAdmin(UpdateUserOnTx(db, target, update).value, user) <==> IsActiveAdmin(db, user)
  {
    UserUpdateIsExact(db, target, update, user);
    AdminByRoles(db, user);
    AdminByRoles(UpdateUserOnTx(db, target, update).value, user);
  }

  /** The update leaves its target an active administrator. */
  predicate LeavesAdmin(db: Db, target: User, update: UserUpdate)
    requires target in db.active
  {
    && Coalesce(update.active, db.active[target])
    && if update.ids.Some? then ADMIN in update.ids.value else (target, ADMIN) in db.assignments
  }

  lemma TargetIsAdminIff(db: Db, target: User, update: UserUpdate)
    requires UpdateUserOnTx(db, target, update).Ok? && (update.ids.Some? ==> RoleListOk(update.ids.value))
    ensures target in db.active
    ensures IsActiveAdmin(UpdateUserOnTx(db, target, update).value, target) <==> LeavesAdmin(db, target, update)
  {
    UserUpdateIsExact(db, target, update, target);
    AdminByRoles(db, target);
    AdminByRoles(UpdateUserOnTx(db, target, update).value, target);
  }

  ghost predicate OtherAdminExists(db: Db, target: User) {
    exists user :: user != target && IsActiveAdmin(db, user)
  }

  /** Whenever it commits, an update leaves an active administrator exactly when there is another one than
      its target or it leaves the target one: a condition the transaction could check. */
  lemma AdminRemainsIff(db: Db, target: User, update: UserUpdate)
    requires UpdateUserOnTx(db, target, update).Ok? && (update.ids.Some? ==> RoleListOk(update.ids.value))
    ensures target in db.active
    ensures AdminExists(UpdateUserOnTx(db, target, update).value) <==>
      OtherAdminExists(db, target) || LeavesAdmin(db, target, update)
  {
    var next := UpdateUserOnTx(db, target, update).value;
    TargetIsAdminIff(db, target, update);
    if user :| user != target && IsActiveAdmin(db, user) {
      OthersStayAsTheyAre(db, target, update, user);
    }
    if user :| IsActiveAdmin(next, user) {
      if user != target {
        OthersStayAsTheyAre(db, target, update, user);
      }
    }
  }

  // ----- Runs of atomic requests -----

  datatype Event = SignUpEvent(user: User) | RequestEvent(request: Request)

  /** New ids are fresh. */
  predicate CanHappen(db: Db, e: Event) {
    match e
    case SignUpEvent(user) => user !in db.active
    case RequestEvent(request) => request.CreateRoleRequest? ==> request.id !in db.roles
  }

  /** A refused request leaves the tables as they were. */
  ghost function Step(db: Db, e: Event): Db {
    match (match e case SignUpEvent(user) => SignUp(db, user) case RequestEvent(request) => Handle(db, request))
    case Ok(next) => next
    case Err(_) => db
  }

  ghost predicate ValidRun(db: Db, run: seq<Event>)
    decreases |run|
  {
    run == [] || (CanHappen(db, run[0]) && ValidRun(Step(db, run[0]), run[1..]))
  }

  ghost function Exec(db: Db, run: seq<Event>): Db
    decreases |run|
  {
    if run == [] then db else Exec(Step(db, run[0]), run[1..])
  }

  /** The migrated tables with one seeded administrator. */
  ghost predicate Init(db: Db) {
    && db.roles == map[ADMIN := Role("admin", "Full administrative access.", true),
                       USER := Role("user", "Standard application user.", true)]
    && db.grants == {(ADMIN, ALL), (USER, "projects:create")}
    && exists admin :: db.active == map[admin := true] && db.assignments == {(admin, ADMIN)}
  }

  lemma InitKeepsInv(db: Db)
    requires Init(db)
    ensures Inv(db)
  {
    SeedIsSound(db);
    var admin :| db.active == map[admin := true] && db.assignments == {(admin, ADMIN)};
    assert ADMIN in RolesOf(db, admin);
    assert IsActiveAdmin(db, admin);
  }

  lemma SeedIsSound(db: Db)
    requires Init(db)
    ensures IsSeeded(db) && NamesOk(db) && GrantsOk(db)
  {
  }

  /** While its actor is an active administrator if its target is one, an update leaves one. */
  lemma GuardedUpdateKeepsAdmin(db: Db, actor: User, target: User, update: UserUpdate)
    requires AdminExists(db) && actor != target && (IsActiveAdmin(db, target) ==> IsActiveAdmin(db, actor))
    requires UpdateUserOnTx(db, target, update).Ok? && (update.ids.Some? ==> RoleListOk(update.ids.value))
    ensures AdminExists(UpdateUserOnTx(db, target, update).value)
  {
    AdminRemainsIff(db, target, update);
    var admin :| IsActiveAdmin(db, admin);
    assert IsActiveAdmin(db, if admin == target then actor else admin);
  }

  /** A role transaction leaves every administrator what it was. */
  lemma RoleTxKeepsAdmins(db: Db, tx: Tx)
    requires !tx.UpdateUserTx? && Commit(db, tx).Ok?
    ensures forall user :: IsActiveAdmin(Commit(db, tx).value, user) <==> IsActiveAdmin(db, user)
    ensures forall user :: IsAdmin(Commit(db, tx).value, user) <==> IsAdmin(db, user)
  {
    RoleTxKeepsUsers(db, tx);
  }

  lemma TxKeepsAdmin(db: Db, tx: Tx)
    requires AdminExists(db) && TxOk(tx) && Commit(db, tx).Ok?
    requires tx.UpdateUserTx? && IsActiveAdmin(db, tx.target) ==> IsActiveAdmin(db, tx.actor)
    ensures AdminExists(Commit(db, tx).value)
  {
    if tx.UpdateUserTx? {
      GuardedUpdateKeepsAdmin(db, tx.actor, tx.target, tx.update);
    } else {
      RoleTxKeepsAdmins(db, tx);
      var admin :| IsActiveAdmin(db, admin);
      assert IsActiveAdmin(Commit(db, tx).value, admin);
    }
  }

  lemma StepKeepsInv(db: Db, e: Event)
    requires Inv(db) && CanHappen(db, e)
    ensures Inv(Step(db, e))
  {
    match e
    case SignUpEvent(user) =>
      SignUpKeepsSound(db, user);
      var admin :| IsActiveAdmin(db, admin);
      assert IsActiveAdmin(Step(db, e), admin);
    case RequestEvent(request) =>
      if Handle(db, request).Ok? {
        RequestKeepsInv(db, request);
      }
  }

  lemma RequestKeepsInv(db: Db, request: Request)
    requires Inv(db) && Handle(db, request).Ok?
    ensures Inv(Handle(db, request).value)
  {
    PlanIsOk(db, request);
    CommitKeepsSound(db, Plan(db, request).value);
    TxKeepsAdmin(db, Plan(db, request).value);
  }

  lemma {:induction false} RunKeepsInv(db: Db, run: seq<Event>)
    requires Inv(db) && ValidRun(db, run)
    ensures Inv(Exec(db, run))
    decreases |run|
  {
    if run != [] {
      StepKeepsInv(db, run[0]);
      RunKeepsInv(Step(db, run[0]), run[1..]);
    }
  }

  /** At least one active administrator always remains. */
  lemma AnAdminRemains(db: Db, run: seq<Event>)
    requires Init(db) && ValidRun(db, run)
    ensures AdminExists(Exec(db, run))
  {
    InitKeepsInv(db);
    RunKeepsInv(db, run);
  }

  /** The user is an administrator before or after, and was made one, unmade one, enabled or disabled. */
  ghost predicate AdminTouched(s: Db, t: Db, user: User) {
    && (IsAdmin(s, user) || IsAdmin(t, user))
    && (IsAdmin(s, user) != IsAdmin(t, user)
        || (user in s.active && (user !in t.active || t.active[user] != s.active[user])))
  }

  /** Administrators change only by successful updates. */
  lemma OnlyUpdatesTouchAdmins(db: Db, e: Event, user: User)
    requires Inv(db) && CanHappen(db, e) && AdminTouched(db, Step(db, e), user)
    ensures e.RequestEvent? && e.request.UpdateUserRequest? && Handle(db, e.request).Ok?
  {
    match e
    case SignUpEvent(newUser) => SignUpKeepsSound(db, newUser); RoleNamedUser(db);
    case RequestEvent(request) =>
      if !request.UpdateUserRequest? && Handle(db, request).Ok? {
        PlanIsOk(db, request);
        RoleTxKeepsUsers(db, Plan(db, request).value);
      }
  }

  /** A user becomes an administrator, or an administrator is changed, only by a request of another
      active administrator. */
  lemma AdminsChangeOnlyByAdmins(db: Db, run: seq<Event>, e: Event, user: User)
    requires Init(db) && ValidRun(db, run) && CanHappen(Exec(db, run), e)
    requires AdminTouched(Exec(db, run), Step(Exec(db, run), e), user)
    ensures e.RequestEvent? && e.request.UpdateUserRequest? && e.request.target == user && e.request.actor != user
    ensures IsActiveAdmin(Exec(db, run), e.request.actor)
  {
    InitKeepsInv(db);
    RunKeepsInv(db, run);
    OnlyUpdatesTouchAdmins(Exec(db, run), e, user);
    UpdateOfAdminIsByAdmin(Exec(db, run), e.request, user);
  }

  lemma UpdateOfAdminIsByAdmin(db: Db, request: Request, user: User)
    requires Inv(db) && request.UpdateUserRequest? && Handle(db, request).Ok?
    requires AdminTouched(db, Handle(db, request).value, user)
    ensures request.target == user && request.actor != user && IsActiveAdmin(db, request.actor)
  {
    PlanIsOk(db, request);
    UpdateTouchesItsTarget(db, Plan(db, request).value, user);
  }

  /** An update touches no administrator but its target, and makes one only if it was planned by one. */
  lemma UpdateTouchesItsTarget(db: Db, tx: Tx, user: User)
    requires tx.UpdateUserTx? && TxOk(tx) && Commit(db, tx).Ok? && AdminTouched(db, Commit(db, tx).value, user)
    ensures tx.target == user && (!IsAdmin(db, user) ==> tx.byAdmin)
  {
    UserUpdateIsExact(db, tx.target, tx.update, user);
    AdminByRoles(db, user);
    AdminByRoles(Commit(db, tx).value, user);
    if tx.target != user {
      OthersStayAsTheyAre(db, tx.target, tx.update, user);
    }
  }

  /** A request that replaces a user's roles leaves the user with exactly the requested ones, all of which
      exist, and everybody else with theirs. */
  lemma RoleUpdateIsExact(db: Db, actor: User, target: User, change: UserChange)
    requires Handle(db, UpdateUserRequest(actor, target, change)).Ok? && change.roles.Some?
    ensures var next := Handle(db, UpdateUserRequest(actor, target, change)).value;
      && RolesOf(next, target) != {}
      && (forall id :: id in RolesOf(next, target) <==> Some(id) in change.roles.value)
      && (forall id :: id in RolesOf(next, target) ==> id in db.roles)
      && (forall other :: other != target ==> RolesOf(next, other) == RolesOf(db, other))
      && next.roles == db.roles && next.grants == db.grants
  {
    var tx := Plan(db, UpdateUserRequest(actor, target, change)).value;
    ParsedRoleIdsAre(change.roles.value);
    assert tx.update.ids.value[0] in Members(tx.update.ids.value);
    UserUpdateIsExact(db, target, tx.update, target);
    forall other | other != target
      ensures RolesOf(UpdateUserOnTx(db, target, tx.update).value, other) == RolesOf(db, other)
    {
      UserUpdateIsExact(db, target, tx.update, other);
    }
  }
}
