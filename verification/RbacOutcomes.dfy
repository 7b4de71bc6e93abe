/**
 What each management request comes to, said of the tables and the request as it was sent: who may send
 it, when it goes through, and what it then leaves.
 */
module RbacOutcomes {
  import opened Permissions
  import opened Rbac
  import opened Sequences
  import opened Text
  import opened Wrappers

  // ----- Who may send a request -----

  /** One of the user's roles is granted the permission or the wildcard. */
  ghost predicate HasGrant(db: Db, user: User, permission: string) {
    exists pair, grant :: pair in db.assignments && grant in db.grants
      && pair.0 == user && grant.0 == pair.1 && (grant.1 == "*" || grant.1 == permission)
  }

  ghost predicate IsActive(db: Db, user: User) {
    user in db.active && db.active[user]
  }

  /** The user may manage users, or roles. */
  ghost predicate MaySend(db: Db, r: Request) {
    HasGrant(db, r.actor, if r.UpdateUserRequest? then "users:manage" else "roles:manage")
  }

  lemma GrantedIff(db: Db, user: User, permission: string)
    ensures Set(PermissionsOf(db, user)).Has(permission) <==> HasGrant(db, user, permission)
  {
    if HasGrant(db, user, permission) {
      var pair, grant :| pair in db.assignments && grant in db.grants
        && pair.0 == user && grant.0 == pair.1 && (grant.1 == "*" || grant.1 == permission);
      assert grant.1 in PermissionsOf(db, user);
    }
    if Set(PermissionsOf(db, user)).Has(permission) {
      var p :| p in PermissionsOf(db, user) && (p == ALL || p == permission);
      var pair, grant :| pair in db.assignments && grant in db.grants && pair.0 == user && grant.0 == pair.1 && grant.1 == p;
    }
  }

  lemma AuthorizedIff(db: Db, r: Request)
    ensures Authorize(db, r.actor, r.Needs()) ==
      if !IsActive(db, r.actor) then Some(Unauthorized) else if !MaySend(db, r) then Some(Forbidden) else None
  {
    GrantedIff(db, r.actor, r.Needs());
  }

  /** A request is answered unauthorized exactly when its actor is not an active user, forbidden exactly
      when it is one but none of its roles is granted the permission of the endpoint or the wildcard, and
      otherwise never for want of either. */
  lemma RefusedActorsIff(db: Db, r: Request)
    ensures Handle(db, r) == Err(Unauthorized) <==> !IsActive(db, r.actor)
    ensures Handle(db, r) == Err(Forbidden) <==> IsActive(db, r.actor) && !MaySend(db, r)
    ensures Handle(db, r).Ok? ==> IsActive(db, r.actor) && MaySend(db, r)
  {
    AuthorizedIff(db, r);
    GuardsRefuseNoActor(db, MayGrantAdmin(db, r.actor), r);
  }

  lemma GuardsRefuseNoActor(db: Db, may: bool, r: Request)
    ensures PlanAuthorized(db, may, r) != Err(Unauthorized) && PlanAuthorized(db, may, r) != Err(Forbidden)
    ensures PlanAuthorized(db, may, r).Ok? ==>
      var done := Commit(db, PlanAuthorized(db, may, r).value); done != Err(Unauthorized) && done != Err(Forbidden)
  {
    if r.UpdateUserRequest? {
      FieldErrors(r.userChange);
    }
  }

  lemma FieldErrors(change: UserChange)
    ensures ParsedStatus(change.status).Err? ==> ParsedStatus(change.status).error == InvalidInput
    ensures ParsedRoles(change.roles).Err? ==> ParsedRoles(change.roles).error == InvalidInput
    ensures NormalizedFields(change.profile).Err? ==> NormalizedFields(change.profile).error == InvalidInput
  {
  }

  lemma HandledIsPlanned(db: Db, r: Request)
    requires IsActive(db, r.actor) && MaySend(db, r)
    ensures Handle(db, r) ==
      match PlanAuthorized(db, MayGrantAdmin(db, r.actor), r) case Err(e) => Err(e) case Ok(tx) => Commit(db, tx)
  {
    AuthorizedIff(db, r);
  }

  // ----- Role requests -----

  ghost predicate NameOk(name: string) {
    1 <= |TrimSpace(name)| <= 50
  }

  ghost predicate DescriptionOk(description: string) {
    |TrimSpace(description)| <= 280
  }

  ghost predicate AllInCatalog(permissions: seq<string>) {
    forall p :: p in permissions ==> TrimSpace(p) in CATALOG
  }

  /** Some other role has the name. */
  ghost predicate NameUsed(db: Db, id: RoleId, name: string) {
    exists other :: other in db.roles && other != id && db.roles[other].name == TrimSpace(name)
  }

  /** The request lists the permission, give or take spaces around it. */
  ghost predicate Lists(permissions: seq<string>, p: string) {
    exists raw :: raw in permissions && TrimSpace(raw) == p
  }

  ghost predicate SameUsers(db: Db, next: Db) {
    next.active == db.active && next.profiles == db.profiles && next.assignments == db.assignments
  }

  ghost predicate OtherRolesSame(db: Db, next: Db, id: RoleId) {
    && (forall role :: role in db.roles && role != id ==> role in next.roles && next.roles[role] == db.roles[role])
    && (forall role :: role in next.roles && role != id ==> role in db.roles)
    && (forall role, p :: role != id ==> ((role, p) in next.grants <==> (role, p) in db.grants))
  }

  lemma NormalizedIff(raw: seq<string>)
    ensures Normalized(raw).Some? <==> AllInCatalog(raw)
    ensures Normalized(raw).Some? ==> forall p :: p in Normalized(raw).value <==> Lists(raw, p)
  {
    var trimmed := Trimmed(raw);
    DedupKeepsMembers(trimmed);
    forall i | AllInCatalog(raw) && 0 <= i < |trimmed| ensures trimmed[i] in CATALOG {
      assert raw[i] in raw;
    }
    forall p ensures p in trimmed <==> Lists(raw, p) {
      if p in trimmed {
        var i :| 0 <= i < |trimmed| && trimmed[i] == p;
        assert raw[i] in raw && TrimSpace(raw[i]) == p;
      }
      if q :| q in raw && TrimSpace(q) == p {
        var i :| 0 <= i < |raw| && raw[i] == q;
        assert trimmed[i] == p;
      }
    }
    forall p ensures p in Dedup(trimmed) <==> p in trimmed {
      assert p in Dedup(trimmed) <==> p in Members(Dedup(trimmed));
    }
    forall p | p in raw && Normalized(raw).Some? ensures TrimSpace(p) in CATALOG {
      assert Lists(raw, TrimSpace(p));
    }
  }

  /** Creating a role goes through exactly when its name, description and permissions are well formed and
      neither its id nor its name is in use; then it has exactly those, and nothing else changes. */
  lemma CreateRoleOutcome(db: Db, actor: User, id: RoleId, name: string, description: string, permissions: seq<string>)
    requires IsActive(db, actor) && HasGrant(db, actor, "roles:manage")
    ensures var done := Handle(db, CreateRoleRequest(actor, id, name, description, permissions));
      var wellFormed := NameOk(name) && DescriptionOk(description) && AllInCatalog(permissions);
      && (done.Ok? <==> wellFormed && id !in db.roles && !NameUsed(db, id, name))
      && (done == Err(InvalidInput) <==> !wellFormed)
      && (done == Err(NameConflict) <==> wellFormed && id !in db.roles && NameUsed(db, id, name))
      && (done.Ok? ==>
           && done.value.roles == db.roles[id := Role(TrimSpace(name), TrimSpace(description), false)]
           && (forall p :: (id, p) in done.value.grants <==> (id, p) in db.grants || Lists(permissions, p))
           && OtherRolesSame(db, done.value, id) && SameUsers(db, done.value))
  {
    HandledIsPlanned(db, CreateRoleRequest(actor, id, name, description, permissions));
    NormalizedIff(permissions);
  }

  ghost predicate ChangeOk(change: RoleChange) {
    && (change.name.Some? ==> NameOk(change.name.value))
    && (change.description.Some? ==> DescriptionOk(change.description.value))
    && (change.permissions.Some? ==> AllInCatalog(change.permissions.value))
  }

  /** The role has what the request gives, and otherwise what it had. */
  ghost predicate RoleChanged(db: Db, next: Db, id: RoleId, change: RoleChange)
    requires id in db.roles
  {
    && id in next.roles && next.roles[id].isSystem == db.roles[id].isSystem
    && next.roles[id].name == (if change.name.Some? then TrimSpace(change.name.value) else db.roles[id].name)
    && next.roles[id].description ==
         (if change.description.Some? then TrimSpace(change.description.value) else db.roles[id].description)
    && (forall p :: (id, p) in next.grants <==>
         if change.permissions.Some? then Lists(change.permissions.value, p) else (id, p) in db.grants)
  }

  lemma NormalizedChangeIff(change: RoleChange)
    ensures NormalizedChange(change).Ok? <==> ChangeOk(change)
    ensures NormalizedChange(change).Err? ==> NormalizedChange(change).error == InvalidInput
    ensures NormalizedChange(change).Ok? ==>
      var n := NormalizedChange(change).value;
      && n.name == (if change.name.Some? then Some(TrimSpace(change.name.value)) else None)
      && n.description == (if change.description.Some? then Some(TrimSpace(change.description.value)) else None)
      && (n.permissions.Some? <==> change.permissions.Some?)
      && (change.permissions.Some? ==> forall p :: p in n.permissions.value <==> Lists(change.permissions.value, p))
  {
    if change.permissions.Some? {
      NormalizedIff(change.permissions.value);
    }
  }

  /** Updating a role goes through exactly for a custom role, a well-formed change of at least one thing and
      a name no other role has. */
  lemma UpdateRoleOutcome(db: Db, actor: User, id: RoleId, change: RoleChange)
    requires IsActive(db, actor) && HasGrant(db, actor, "roles:manage")
    ensures var done := Handle(db, UpdateRoleRequest(actor, id, change));
      var asked := change.name.Some? || change.description.Some? || change.permissions.Some?;
      var custom := id in db.roles && !db.roles[id].isSystem;
      var taken := change.name.Some? && NameUsed(db, id, change.name.value);
      && (done.Ok? <==> asked && custom && ChangeOk(change) && !taken)
      && (done == Err(NotFound) <==> asked && id !in db.roles)
      && (done == Err(SystemRole) <==> asked && id in db.roles && db.roles[id].isSystem)
      && (done == Err(NameConflict) <==> asked && custom && ChangeOk(change) && taken)
      && (done.Ok? ==>
           RoleChanged(db, done.value, id, change) && OtherRolesSame(db, done.value, id) && SameUsers(db, done.value))
  {
    HandledIsPlanned(db, UpdateRoleRequest(actor, id, change));
    NormalizedChangeIff(change);
    if id in db.roles && NormalizedChange(change).Ok? {
      RoleUpdateCommits(db, id, change, NormalizedChange(change).value);
    }
  }

  /** The transaction of a well-formed change. */
  lemma RoleUpdateCommits(db: Db, id: RoleId, change: RoleChange, n: RoleChange)
    requires id in db.roles
    requires n.name == (if change.name.Some? then Some(TrimSpace(change.name.value)) else None)
    requires n.description == (if change.description.Some? then Some(TrimSpace(change.description.value)) else None)
    requires n.permissions.Some? <==> change.permissions.Some?
    requires change.permissions.Some? ==> forall p :: p in n.permissions.value <==> Lists(change.permissions.value, p)
    ensures var done := UpdateRoleOnTx(db, id, n);
      && (done.Ok? <==> !(change.name.Some? && NameUsed(db, id, change.name.value)))
      && (done.Err? ==> done.error == NameConflict)
      && (done.Ok? ==>
           RoleChanged(db, done.value, id, change) && OtherRolesSame(db, done.value, id) && SameUsers(db, done.value))
  {
    if UpdateRoleOnTx(db, id, n).Ok? && n.permissions.Some? {
      var renamed := UpdateRoleDetails(db, id, n.name, n.description);
      forall role, p ensures (role, p) in ReplaceRolePermissions(renamed, id, n.permissions.value).grants <==>
        if role == id then p in n.permissions.value else (role, p) in db.grants
      {
        ReplaceRolePermissionsReplaces(renamed, id, n.permissions.value, role, p);
      }
    }
  }

  /** Deleting a role goes through exactly for a custom role nobody has. */
  lemma DeleteRoleOutcome(db: Db, actor: User, id: RoleId)
    requires IsActive(db, actor) && HasGrant(db, actor, "roles:manage")
    ensures var done := Handle(db, DeleteRoleRequest(actor, id));
      var custom := id in db.roles && !db.roles[id].isSystem;
      var held := (exists user :: (user, id) in db.assignments);
      && (done.Ok? <==> custom && !held)
      && (done == Err(NotFound) <==> id !in db.roles)
      && (done == Err(SystemRole) <==> id in db.roles && db.roles[id].isSystem)
      && (done == Err(RoleInUse) <==> custom && held)
      && (done.Ok? ==>
           && id !in done.value.roles && (forall p :: (id, p) !in done.value.grants)
           && OtherRolesSame(db, done.value, id) && SameUsers(db, done.value))
  {
    HandledIsPlanned(db, DeleteRoleRequest(actor, id));
    HeldIff(db, id);
  }

  lemma HeldIff(db: Db, id: RoleId)
    ensures (exists pair :: pair in db.assignments && pair.1 == id) <==> exists user :: (user, id) in db.assignments
  {
    if pair :| pair in db.assignments && pair.1 == id {
      assert (pair.0, id) in db.assignments;
    }
  }

  /** What a transaction is refused with when the role was deleted, made a system role or assigned after its
      request passed the guards. */
  lemma LateRefusals(db: Db, id: RoleId, change: RoleChange)
    ensures DeleteRoleOnTx(db, id) == Err(RoleInUse) <==>
      id !in db.roles || db.roles[id].isSystem || exists user :: (user, id) in db.assignments
    ensures UpdateRoleOnTx(db, id, change) == Err(NotFound) <==>
      id !in db.roles && (change.permissions == None || change.permissions == Some([]))
    ensures UpdateRoleOnTx(db, id, change) == Err(StoreFailed) <==>
      id !in db.roles && change.permissions != None && change.permissions != Some([])
  {
    HeldIff(db, id);
  }

  // ----- User requests -----

  /** The user has a role of that name. */
  ghost predicate HasRoleCalled(db: Db, user: User, name: string) {
    exists pair :: pair in db.assignments && pair.0 == user && pair.1 in db.roles && TrimSpace(db.roles[pair.1].name) == name
  }

  /** The user may hand out the admin role and change administrators. */
  ghost predicate MayMakeAdmins(db: Db, user: User) {
    HasGrant(db, user, "*") || HasRoleCalled(db, user, "admin")
  }

  lemma CalledIff(db: Db, user: User)
    ensures HasAdminRole(RoleNames(db, user)) <==> HasRoleCalled(db, user, "admin")
  {
    if HasRoleCalled(db, user, "admin") {
      var pair :| pair in db.assignments && pair.0 == user && pair.1 in db.roles && TrimSpace(db.roles[pair.1].name) == "admin";
      assert db.roles[pair.1].name in RoleNames(db, user);
    }
    if name :| name in RoleNames(db, user) && TrimSpace(name) == "admin" {
      var pair :| pair in db.assignments && pair.0 == user && pair.1 in db.roles && db.roles[pair.1].name == name;
    }
  }

  lemma MayGrantAdminIff(db: Db, user: User)
    ensures MayGrantAdmin(db, user) <==> MayMakeAdmins(db, user)
  {
    CalledIff(db, user);
    GrantedIff(db, user, "*");
  }

  /** The field fits its column once it is trimmed. */
  ghost predicate Fits(value: Option<string>, max: nat) {
    value.Some? ==> Utf8Length(TrimSpace(value.value)) <= max
  }

  ghost predicate ProfileOk(p: ProfileFields) {
    Fits(p.avatarUrl, 262144) && Fits(p.phone, 256) && Fits(p.jobTitle, 256) && Fits(p.company, 256)
  }

  /** The column holds the given text without the spaces around it, or what it held. */
  ghost predicate Stored(given: Option<string>, before: string, after: string) {
    after == if given.Some? then TrimSpace(given.value) else before
  }

  ghost predicate ProfileStored(fields: ProfileFields, before: Profile, after: Profile) {
    && Stored(fields.avatarUrl, before.avatarUrl, after.avatarUrl) && Stored(fields.phone, before.phone, after.phone)
    && Stored(fields.jobTitle, before.jobTitle, after.jobTitle) && Stored(fields.company, before.company, after.company)
  }

  ghost predicate AsksSomething(change: UserChange) {
    change.status.Some? || change.roles.Some? || change.profile != ProfileFields(None, None, None, None)
  }

  /** Every id the request gives is well formed, and there is one. */
  ghost predicate IdsOk(roles: Option<seq<RawRoleId>>) {
    roles.Some? ==> roles.value != [] && None !in roles.value
  }

  ghost predicate AsksForAdmin(change: UserChange) {
    change.roles.Some? && Some(ADMIN) in change.roles.value
  }

  ghost predicate RolesExist(db: Db, roles: Option<seq<RawRoleId>>) {
    roles.Some? ==> forall id :: Some(id) in roles.value ==> id in db.roles
  }

  lemma ParsedRolesIff(roles: Option<seq<RawRoleId>>)
    ensures ParsedRoles(roles).Ok? <==> IdsOk(roles)
    ensures ParsedRoles(roles).Ok? ==> (ParsedRoles(roles).value.Some? <==> roles.Some?)
    ensures ParsedRoles(roles).Ok? && roles.Some? ==>
      var ids := ParsedRoles(roles).value.value;
      ids != [] && Distinct(ids) && forall id :: id in ids <==> Some(id) in roles.value
  {
    if roles.Some? && ParsedRoleIds(roles.value).Ok? {
      ParsedRoleIdsAre(roles.value);
    }
  }

  lemma NormalizedFieldsIff(p: ProfileFields)
    ensures NormalizedFields(p).Ok? <==> ProfileOk(p)
    ensures NormalizedFields(p).Ok? ==>
      && (NormalizedFields(p).value == NO_FIELDS <==> p == NO_FIELDS)
      && forall before :: ProfileStored(p, before, MergedProfile(before, NormalizedFields(p).value))
  {
  }

  /** The request passes every guard before the tables are looked at. */
  ghost predicate WellFormed(change: UserChange) {
    AsksSomething(change) && change.status != Some(UnknownStatus) && IdsOk(change.roles) && ProfileOk(change.profile)
  }

  /** Only who may make administrators hands out the admin role or changes somebody who has it. */
  ghost predicate Privileged(db: Db, actor: User, target: User, change: UserChange) {
    AsksForAdmin(change) || HasRoleCalled(db, target, "admin") ==> MayMakeAdmins(db, actor)
  }

  /** What is wrong with the request is found out in this order: the status, the ids, the admin role among
      them, the profile, the target. */
  ghost predicate LacksPrivilege(db: Db, may: bool, target: User, change: UserChange) {
    && !may && AsksSomething(change) && change.status != Some(UnknownStatus) && IdsOk(change.roles)
    && (AsksForAdmin(change) || (ProfileOk(change.profile) && target in db.active && HasRoleCalled(db, target, "admin")))
  }

  lemma PlannedUpdate(db: Db, may: bool, actor: User, target: User, change: UserChange)
    ensures var plan := PlanUpdateUser(db, may, actor, target, change);
      && (plan.Ok? <==>
           && actor != target && WellFormed(change) && target in db.active
           && (AsksForAdmin(change) || HasRoleCalled(db, target, "admin") ==> may))
      && (plan == Err(SelfModification) <==> actor == target)
      && (plan == Err(InsufficientPrivilege) <==> actor != target && LacksPrivilege(db, may, target, change))
      && (plan == Err(NotFound) <==>
           actor != target && WellFormed(change) && (AsksForAdmin(change) ==> may) && target !in db.active)
      && (plan.Ok? ==>
           && plan.value.UpdateUserTx? && plan.value.target == target
           && Ok(plan.value.update.active) == ParsedStatus(change.status)
           && Ok(plan.value.update.ids) == ParsedRoles(change.roles)
           && Ok(plan.value.update.profile) == NormalizedFields(change.profile))
  {
    ParsedRolesIff(change.roles);
    NormalizedFieldsIff(change.profile);
    FieldErrors(change);
    CalledIff(db, target);
  }

  lemma UpdateCommits(db: Db, target: User, update: UserUpdate)
    requires update.ids.Some? ==> Distinct(update.ids.value)
    ensures UpdateUserOnTx(db, target, update).Ok? <==>
      target in db.active && (update.ids.Some? ==> forall id :: id in update.ids.value ==> id in db.roles)
    ensures UpdateUserOnTx(db, target, update).Err? ==>
      UpdateUserOnTx(db, target, update).error == if target in db.active then InvalidInput else NotFound
  {
    if update.ids.Some? {
      CountMatchesIffAllExist(db, update.ids.value);
      assert forall updated: Db :: updated.roles == db.roles ==>
        RolesByIds(updated, update.ids.value) == RolesByIds(db, update.ids.value);
    }
  }

  /** Updating a user goes through exactly when the target is somebody else, the request is well formed, its
      roles exist, and the actor may make administrators wherever the request touches one. Nobody changes
      their own account. */
  lemma UpdateUserSucceedsIff(db: Db, actor: User, target: User, change: UserChange)
    requires IsActive(db, actor) && HasGrant(db, actor, "users:manage")
    ensures var done := Handle(db, UpdateUserRequest(actor, target, change));
      && (done.Ok? <==>
           && actor != target && WellFormed(change) && target in db.active
           && Privileged(db, actor, target, change) && RolesExist(db, change.roles))
      && (done == Err(SelfModification) <==> actor == target)
      && (done == Err(InsufficientPrivilege) <==>
           actor != target && LacksPrivilege(db, MayMakeAdmins(db, actor), target, change))
      && (done == Err(NotFound) <==>
           && actor != target && WellFormed(change) && target !in db.active
           && (AsksForAdmin(change) ==> MayMakeAdmins(db, actor)))
  {
    var r, may := UpdateUserRequest(actor, target, change), MayGrantAdmin(db, actor);
    HandledIsPlanned(db, r);
    MayGrantAdminIff(db, actor);
    PlannedUpdate(db, may, actor, target, change);
    if PlanUpdateUser(db, may, actor, target, change).Ok? {
      ParsedRolesIff(change.roles);
      UpdateCommits(db, target, PlanUpdateUser(db, may, actor, target, change).value.update);
    }
  }

  /** Then the target has exactly the status, roles and profile the request gives, and otherwise what it
      had; everybody else, and every role and grant, stays as it was. */
  lemma UpdateUserEffect(db: Db, actor: User, target: User, change: UserChange, user: User)
    requires Handle(db, UpdateUserRequest(actor, target, change)).Ok?
    ensures var next := Handle(db, UpdateUserRequest(actor, target, change)).value;
      && target in db.active && next.active.Keys == db.active.Keys && (user != target && user in db.active ==> next.active[user] == db.active[user])
      && next.active[target] == (if change.status.Some? then change.status == Some(ActiveStatus) else db.active[target])
      && (forall id :: (user, id) in next.assignments <==>
           if user == target && change.roles.Some? then Some(id) in change.roles.value else (user, id) in db.assignments)
      && ProfileStored(if user == target then change.profile else NO_FIELDS, ProfileOf(db, user), ProfileOf(next, user))
      && next.roles == db.roles && next.grants == db.grants
  {
    var update := CommittedUpdate(db, actor, target, change);
    ParsedRolesIff(change.roles);
    UserUpdateIsExact(db, target, update, user);
    UserUpdateIsExact(db, target, update, target);
    AssignedIff(db, user);
    AssignedIff(UpdateUserOnTx(db, target, update).value, user);
    ProfileEffect(db, target, update, change.profile, user);
  }

  lemma ProfileEffect(db: Db, target: User, update: UserUpdate, fields: ProfileFields, user: User)
    requires UpdateUserOnTx(db, target, update).Ok? && (update.ids.Some? ==> RoleListOk(update.ids.value))
    requires Ok(update.profile) == NormalizedFields(fields)
    ensures ProfileStored(if user == target then fields else NO_FIELDS,
                          ProfileOf(db, user), ProfileOf(UpdateUserOnTx(db, target, update).value, user))
  {
    UserUpdateIsExact(db, target, update, user);
    NormalizedFieldsIff(fields);
  }

  /** The update that a successful request commits. */
  lemma CommittedUpdate(db: Db, actor: User, target: User, change: UserChange) returns (update: UserUpdate)
    requires Handle(db, UpdateUserRequest(actor, target, change)).Ok?
    ensures Handle(db, UpdateUserRequest(actor, target, change)) == UpdateUserOnTx(db, target, update)
    ensures Ok(update.active) == ParsedStatus(change.status) && Ok(update.ids) == ParsedRoles(change.roles)
    ensures Ok(update.profile) == NormalizedFields(change.profile)
    ensures update.ids.Some? ==> RoleListOk(update.ids.value)
  {
    var r, may := UpdateUserRequest(actor, target, change), MayGrantAdmin(db, actor);
    RefusedActorsIff(db, r);
    HandledIsPlanned(db, r);
    PlannedUpdate(db, may, actor, target, change);
    ParsedRolesIff(change.roles);
    update := PlanUpdateUser(db, may, actor, target, change).value.update;
  }

  lemma AssignedIff(db: Db, user: User)
    ensures forall id :: (user, id) in db.assignments <==> id in RolesOf(db, user)
  {
  }

  // ----- Sign-ups -----

  /** A new account is active, has the role called user and no other, and an empty profile; nothing else
      changes. */
  lemma SignUpOutcome(db: Db, user: User)
    requires IsSeeded(db) && NamesOk(db) && user !in db.active
    ensures SignUp(db, user).Ok?
    ensures var next := SignUp(db, user).value;
      && next.active == db.active[user := true] && next.assignments == db.assignments + {(user, USER)}
      && ProfileOf(next, user) == Profile("", "", "", "")
      && (forall other :: other != user ==> ProfileOf(next, other) == ProfileOf(db, other))
      && next.roles == db.roles && next.grants == db.grants
  {
    RoleNamedUser(db);
  }
}
