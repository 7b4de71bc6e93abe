/** The role and assignment tables updated in place, and the user and role management services. */
module RbacService {
  import opened Permissions
  import opened Rbac
  import opened RbacOutcomes
  import opened Sequences
  import opened Text
  import opened Wrappers

  /** The events recorded in the transaction of each change. */
  datatype AuditEvent =
    | UserUpdated(actor: User, target: User)
    | RoleCreated(actor: User, id: RoleId)
    | RoleUpdated(actor: User, id: RoleId)
    | RoleDeleted(actor: User, id: RoleId)

  class Store {
    var audit: seq<AuditEvent>
    var active: map<User, bool>
    var profiles: map<User, Profile>
    var roles: map<RoleId, Role>
    var grants: set<(RoleId, string)>
    var assignments: set<(User, RoleId)>

    /** The migrated tables with one administrator. */
    constructor (admin: User)
      ensures Init(Snapshot()) && audit == []
    {
      audit := [];
      active := map[admin := true];
      profiles := map[];
      roles := map[ADMIN := Role("admin", "Full administrative access.", true),
                   USER := Role("user", "Standard application user.", true)];
      grants := {(ADMIN, ALL), (USER, "projects:create")};
      assignments := {(admin, ADMIN)};
    }

    function Snapshot(): Db
      reads this
    {
      Db(active, profiles, roles, grants, assignments)
    }

    /** Undo every statement since the snapshot. */
    method Rollback(snapshot: Db)
      modifies this`active, this`profiles, this`roles, this`grants, this`assignments
      ensures Snapshot() == snapshot
    {
      active, profiles := snapshot.active, snapshot.profiles;
      roles, grants, assignments := snapshot.roles, snapshot.grants, snapshot.assignments;
    }

    /** The last statement of a unit of work: when it or the commit fails, everything is undone. */
    method RecordAndCommit(event: AuditEvent, before: Db, faulty: bool) returns (r: Result<(), Error>)
      modifies this
      ensures if faulty then r == Err(StoreFailed) && Snapshot() == before && audit == old(audit)
              else r == Ok(()) && Snapshot() == old(Snapshot()) && audit == old(audit) + [event]
    {
      if faulty {
        Rollback(before);
        return Err(StoreFailed);
      }
      audit := audit + [event];
      return Ok(());
    }

    method ListUserRoles(user: User) returns (names: seq<string>)
      ensures Members(names) == RoleNames(Snapshot(), user)
    {
      names := ListOf(RoleNames(Snapshot(), user));
    }

    method ListUserPermissions(user: User) returns (permissions: seq<string>)
      ensures Members(permissions) == PermissionsOf(Snapshot(), user)
    {
      permissions := ListOf(PermissionsOf(Snapshot(), user));
    }

    /** The rows of a result, scanned one by one. */
    static method ListOf(rows: set<string>) returns (list: seq<string>)
      ensures Members(list) == rows
    {
      var left := rows;
      list := [];
      while left != {}
        invariant Members(list) + left == rows
        decreases |left|
      {
        var row :| row in left;
        MembersStep(list, row);
        list := list + [row];
        left := left - {row};
      }
    }

    method ReplaceUserRoles(user: User, ids: seq<RoleId>)
      modifies this`assignments
      ensures Snapshot() == Rbac.ReplaceUserRoles(old(Snapshot()), user, ids)
    {
      var snapshot := assignments;
      assignments := assignments + set id | id in ids && (user, id) !in snapshot :: (user, id);
      assignments := assignments - set pair | pair in snapshot && pair.0 == user && pair.1 !in ids;
    }

    method ReplaceRolePermissions(role: RoleId, permissions: seq<string>)
      modifies this`grants
      ensures Snapshot() == Rbac.ReplaceRolePermissions(old(Snapshot()), role, permissions)
    {
      var snapshot := grants;
      grants := grants + set p | p in permissions && (role, p) !in snapshot :: (role, p);
      grants := grants - set grant | grant in snapshot && grant.0 == role && grant.1 !in permissions;
    }

    method UpdateUserFields(target: User, status: Option<bool>, fields: ProfileFields)
      requires target in active
      modifies this`active, this`profiles
      ensures Snapshot() == Rbac.UpdateUserFields(old(Snapshot()), target, status, fields)
    {
      var profile := ProfileOf(Snapshot(), target);
      active := active[target := Coalesce(status, active[target])];
      profiles := profiles[target := MergedProfile(profile, fields)];
    }

    /** The transaction of UpdateUser: the statements in order, all undone on an error. */
    method UpdateUser(target: User, update: UserUpdate) returns (r: Result<(), Error>)
      modifies this`active, this`profiles, this`roles, this`grants, this`assignments
      ensures match UpdateUserOnTx(old(Snapshot()), target, update)
        case Ok(next) => r == Ok(()) && Snapshot() == next
        case Err(e) => r == Err(e) && Snapshot() == old(Snapshot())
    {
      var before := Snapshot();
      if target !in active {
        return Err(NotFound);
      }
      if update.active.Some? || update.profile != NO_FIELDS {
        UpdateUserFields(target, update.active, update.profile);
      }
      if update.ids.Some? {
        var found := |RolesByIds(Snapshot(), update.ids.value)|;
        if found != |update.ids.value| {
          Rollback(before);
          return Err(InvalidInput);
        }
        ReplaceUserRoles(target, update.ids.value);
      }
      return Ok(());
    }

    /** The transaction of CreateRole: the row, unless its id or name is taken, then its permissions. */
    method CreateRole(id: RoleId, name: string, description: string, permissions: seq<string>) returns (r: Result<(), Error>)
      modifies this`roles, this`grants
      ensures r == Err(StoreFailed) <==> id in old(roles)
      ensures r == Err(NameConflict) <==>
        id !in old(roles) && exists other :: other in old(roles) && old(roles)[other].name == name
      ensures match CreateRoleOnTx(old(Snapshot()), id, name, description, permissions)
        case Ok(next) => r == Ok(()) && Snapshot() == next
        case Err(e) => r == Err(e) && Snapshot() == old(Snapshot())
    {
      if id in roles {
        return Err(StoreFailed);
      }
      if NameTaken(Snapshot(), id, name) {
        return Err(NameConflict);
      }
      roles := roles[id := Role(name, description, false)];
      grants := grants + set p | p in permissions :: (id, p);
      return Ok(());
    }

    /** The transaction of UpdateRole: details, permissions, and the row read back, all undone on an
        error. */
    method UpdateRole(id: RoleId, change: RoleChange) returns (r: Result<(), Error>)
      modifies this`active, this`profiles, this`roles, this`grants, this`assignments
      ensures r == Err(NotFound) <==> id !in old(roles) && (change.permissions == None || change.permissions == Some([]))
      ensures r == Err(StoreFailed) <==> id !in old(roles) && change.permissions != None && change.permissions != Some([])
      ensures r == Err(NameConflict) <==>
        && id in old(roles) && change.name.Some?
        && exists other :: other in old(roles) && other != id && old(roles)[other].name == change.name.value
      ensures match UpdateRoleOnTx(old(Snapshot()), id, change)
        case Ok(next) => r == Ok(()) && Snapshot() == next
        case Err(e) => r == Err(e) && Snapshot() == old(Snapshot())
    {
      var before := Snapshot();
      if id in roles && (change.name.Some? || change.description.Some?) {
        if change.name.Some? && NameTaken(before, id, change.name.value) {
          return Err(NameConflict);
        }
        var role := roles[id];
        roles := roles[id :=
          role.(name := Coalesce(change.name, role.name), description := Coalesce(change.description, role.description))];
      }
      if change.permissions.Some? {
        if id !in roles && change.permissions.value != [] {
          return Err(StoreFailed);
        }
        ReplaceRolePermissions(id, change.permissions.value);
      }
      if id !in roles {
        Rollback(before);
        return Err(NotFound);
      }
      assert roles == UpdateRoleDetails(before, id, change.name, change.description).roles;
      return Ok(());
    }

    /** DELETE ... WHERE is_system = false AND NOT EXISTS (an assignment), with its permissions; whether a
        row was deleted. */
    method DeleteRole(id: RoleId) returns (deleted: bool)
      modifies this`roles, this`grants
      ensures deleted <==>
        id in old(roles) && !old(roles)[id].isSystem && forall user :: (user, id) !in assignments
      ensures roles == if deleted then old(roles) - {id} else old(roles)
      ensures forall role, p :: (role, p) in grants <==> (role, p) in old(grants) && !(deleted && role == id)
      ensures match DeleteRoleOnTx(old(Snapshot()), id)
        case Ok(next) => deleted && Snapshot() == next
        case Err(_) => !deleted && Snapshot() == old(Snapshot())
    {
      HeldIff(Snapshot(), id);
      if id !in roles || roles[id].isSystem || exists pair :: pair in assignments && pair.1 == id {
        return false;
      }
      roles := roles - {id};
      grants := set grant | grant in grants && grant.0 != id;
      return true;
    }

    /** The transaction of a sign-up: the user row and the default role. */
    method SignUp(user: User) returns (r: Result<(), Error>)
      requires user !in active && NamesOk(Snapshot())
      modifies this`active, this`profiles, this`assignments
      ensures match Rbac.SignUp(old(Snapshot()), user)
        case Ok(next) => r == Ok(()) && Snapshot() == next
        case Err(e) => r == Err(e) && Snapshot() == old(Snapshot())
    {
      var before, profilesBefore := active, profiles;
      active, profiles := active[user := true], profiles[user := NO_PROFILE];
      if !exists id :: id in roles && roles[id].name == "user" {
        active, profiles := before, profilesBefore;
        return Err(NotFound);
      }
      var role :| role in roles && roles[role].name == "user";
      assignments := assignments + {(user, role)};
      return Ok(());
    }
  }

  // ----- The services -----

  /** What a request comes to: its change and its audit event together, or neither. faulty is whether the
      database fails to record the event or to commit. */
  ghost predicate Served(before: Db, audit: seq<AuditEvent>, after: Db, audited: seq<AuditEvent>, r: Result<(), Error>,
                         request: Request, event: AuditEvent, faulty: bool)
  {
    match Handle(before, request)
    case Err(e) => r == Err(e) && after == before && audited == audit
    case Ok(next) =>
      if faulty then r == Err(StoreFailed) && after == before && audited == audit
      else r == Ok(()) && after == next && audited == audit + [event]
  }

  method CanGrantSystemAdmin(roles: seq<string>, permissions: seq<string>) returns (can: bool)
    ensures can <==> CanGrantAdmin(Members(roles), Members(permissions))
  {
    var resolved := NewSet(permissions);
    if resolved.Has(ALL) {
      return true;
    }
    can := HasRole(roles, "admin");
  }

  method HasRole(roles: seq<string>, name: string) returns (has: bool)
    ensures has <==> exists role :: role in Members(roles) && TrimSpace(role) == name
  {
    for i := 0 to |roles|
      invariant forall j :: 0 <= j < i ==> TrimSpace(roles[j]) != name
    {
      if TrimSpace(roles[i]) == name {
        assert roles[i] in Members(roles);
        return true;
      }
    }
    return false;
  }

  method ParseRoleIds(raw: seq<RawRoleId>) returns (r: Result<seq<RoleId>, Error>)
    ensures r == ParsedRoleIds(raw)
  {
    if |raw| == 0 {
      return Err(InvalidInput);
    }
    var seen: set<RoleId> := {};
    var ids := [];
    for i := 0 to |raw|
      invariant forall j :: 0 <= j < i ==> raw[j].Some?
      invariant ids == Dedup(Values(raw[..i])) && seen == Members(ids)
    {
      if raw[i].None? {
        return Err(InvalidInput);
      }
      ValuesStep(raw, i);
      DedupLast(Values(raw[..i]), raw[i].value);
      MembersStep(ids, raw[i].value);
      assert raw[i].value in seen <==> raw[i].value in ids;
      if raw[i].value !in seen {
        seen := seen + {raw[i].value};
        ids := ids + [raw[i].value];
      }
    }
    assert raw[..|raw|] == raw;
    return Ok(ids);
  }

  lemma ValuesStep(raw: seq<RawRoleId>, i: nat)
    requires i < |raw| && forall j :: 0 <= j <= i ==> raw[j].Some?
    ensures Values(raw[..i + 1]) == Values(raw[..i]) + [raw[i].value]
  {
    assert raw[..i + 1][..i] == raw[..i];
  }

  /** Requests on users, each authorised first. */
  class UserService {
    const store: Store

    constructor (store: Store)
      ensures this.store == store
    {
      this.store := store;
    }

    /** Resolve the actor's roles and permissions, as every request does first. */
    method Authorize(actor: User, permission: string) returns (r: Result<(seq<string>, seq<string>), Error>)
      ensures match Rbac.Authorize(store.Snapshot(), actor, permission)
        case Some(e) => r == Err(e)
        case None =>
          && r.Ok? && Members(r.value.0) == RoleNames(store.Snapshot(), actor)
          && Members(r.value.1) == PermissionsOf(store.Snapshot(), actor)
    {
      if actor !in store.active || !store.active[actor] {
        return Err(Unauthorized);
      }
      var names := store.ListUserRoles(actor);
      var permissions := store.ListUserPermissions(actor);
      var resolved := NewSet(permissions);
      if !resolved.Has(permission) {
        return Err(Forbidden);
      }
      return Ok((names, permissions));
    }

    method NormalizeField(value: Option<string>, max: nat) returns (r: Result<Option<string>, Error>)
      ensures r == NormalizedField(value, max)
    {
      if value.None? {
        return Ok(None);
      }
      var trimmed := TrimSpace(value.value);
      if Utf8Length(trimmed) > max {
        return Err(InvalidInput);
      }
      return Ok(Some(trimmed));
    }

    method NormalizeFields(fields: ProfileFields) returns (r: Result<ProfileFields, Error>)
      ensures r == NormalizedFields(fields)
    {
      var avatarUrl := NormalizeField(fields.avatarUrl, MAX_AVATAR_FIELD_LENGTH);
      if avatarUrl.Err? {
        return Err(avatarUrl.error);
      }
      var phone := NormalizeField(fields.phone, MAX_PROFILE_FIELD_LENGTH);
      if phone.Err? {
        return Err(phone.error);
      }
      var jobTitle := NormalizeField(fields.jobTitle, MAX_PROFILE_FIELD_LENGTH);
      if jobTitle.Err? {
        return Err(jobTitle.error);
      }
      var company := NormalizeField(fields.company, MAX_PROFILE_FIELD_LENGTH);
      if company.Err? {
        return Err(company.error);
      }
      return Ok(ProfileFields(avatarUrl.value, phone.value, jobTitle.value, company.value));
    }

    /** The update to commit, when nothing is wrong with the request. */
    method CheckUpdate(may: bool, actor: User, target: User, change: UserChange) returns (r: Result<UserUpdate, Error>)
      ensures match PlanUpdateUser(store.Snapshot(), may, actor, target, change)
        case Ok(tx) => r == Ok(tx.update)
        case Err(e) => r == Err(e)
    {
      if actor == target {
        return Err(SelfModification);
      }
      if change.status.None? && change.roles.None? && change.profile == NO_FIELDS {
        return Err(InvalidInput);
      }
      var update := UserUpdate(None, None, NO_FIELDS);
      if change.status.Some? {
        if change.status.value == UnknownStatus {
          return Err(InvalidInput);
        }
        update := update.(active := Some(change.status.value == ActiveStatus));
      }
      if change.roles.Some? {
        var parsed := ParseRoleIds(change.roles.value);
        if parsed.Err? {
          return Err(parsed.error);
        }
        if ADMIN in parsed.value && !may {
          return Err(InsufficientPrivilege);
        }
        update := update.(ids := Some(parsed.value));
      }
      var profile := NormalizeFields(change.profile);
      if profile.Err? {
        return Err(profile.error);
      }
      update := update.(profile := profile.value);
      if target !in store.active {
        return Err(NotFound);
      }
      var targetRoles := store.ListUserRoles(target);
      var targetIsAdmin := HasRole(targetRoles, "admin");
      if targetIsAdmin && !may {
        return Err(InsufficientPrivilege);
      }
      return Ok(update);
    }

    /** The unit of work. */
    method CommitUpdate(actor: User, target: User, update: UserUpdate, faulty: bool) returns (r: Result<(), Error>)
      modifies store
      ensures match UpdateUserOnTx(old(store.Snapshot()), target, update)
        case Err(e) => r == Err(e) && store.Snapshot() == old(store.Snapshot()) && store.audit == old(store.audit)
        case Ok(next) =>
          if faulty then
            r == Err(StoreFailed) && store.Snapshot() == old(store.Snapshot()) && store.audit == old(store.audit)
          else
            r == Ok(()) && store.Snapshot() == next && store.audit == old(store.audit) + [UserUpdated(actor, target)]
    {
      var before := store.Snapshot();
      r := store.UpdateUser(target, update);
      if r.Ok? {
        r := store.RecordAndCommit(UserUpdated(actor, target), before, faulty);
      }
    }

    method UpdateUser(actor: User, target: User, change: UserChange, faulty: bool) returns (r: Result<(), Error>)
      modifies store
      ensures Served(old(store.Snapshot()), old(store.audit), store.Snapshot(), store.audit, r,
                     UpdateUserRequest(actor, target, change), UserUpdated(actor, target), faulty)
      ensures r == Err(Unauthorized) <==> !IsActive(old(store.Snapshot()), actor)
      ensures r == Err(Forbidden) <==> IsActive(old(store.Snapshot()), actor) && !HasGrant(old(store.Snapshot()), actor, "users:manage")
    {
      RefusedActorsIff(store.Snapshot(), UpdateUserRequest(actor, target, change));
      var caller := Authorize(actor, "users:manage");
      if caller.Err? {
        return Err(caller.error);
      }
      var may := CanGrantSystemAdmin(caller.value.0, caller.value.1);
      var update := CheckUpdate(may, actor, target, change);
      if update.Err? {
        return Err(update.error);
      }
      r := CommitUpdate(actor, target, update.value, faulty);
    }
  }

  class RoleService {
    const store: Store
    const users: UserService

    constructor (users: UserService)
      ensures this.users == users && store == users.store
    {
      this.users := users;
      store := users.store;
    }

    method NormalizeName(value: string) returns (r: Result<string, Error>)
      ensures r == NormalizedName(value)
    {
      var trimmed := TrimSpace(value);
      if trimmed == "" {
        return Err(InvalidInput);
      }
      if |trimmed| > MAX_NAME_LENGTH {
        return Err(InvalidInput);
      }
      return Ok(trimmed);
    }

    /** id is the freshly generated role id. */
    method CreateRole(actor: User, id: RoleId, name: string, description: string, permissions: seq<string>, faulty: bool)
      returns (r: Result<(), Error>)
      requires store == users.store
      modifies store
      ensures Served(old(store.Snapshot()), old(store.audit), store.Snapshot(), store.audit, r,
                     CreateRoleRequest(actor, id, name, description, permissions), RoleCreated(actor, id), faulty)
      ensures r == Err(Unauthorized) <==> !IsActive(old(store.Snapshot()), actor)
      ensures r == Err(Forbidden) <==> IsActive(old(store.Snapshot()), actor) && !HasGrant(old(store.Snapshot()), actor, "roles:manage")
    {
      RefusedActorsIff(store.Snapshot(), CreateRoleRequest(actor, id, name, description, permissions));
      var caller := users.Authorize(actor, "roles:manage");
      if caller.Err? {
        return Err(caller.error);
      }
      var name := NormalizeName(name);
      if name.Err? {
        return Err(name.error);
      }
      var description := NormalizedDescription(description);
      if description.Err? {
        return Err(description.error);
      }
      var permissions := NormalizePermissions(permissions);
      if permissions.None? {
        return Err(InvalidInput);
      }
      var before := store.Snapshot();
      r := store.CreateRole(id, name.value, description.value, permissions.value);
      if r.Ok? {
        r := store.RecordAndCommit(RoleCreated(actor, id), before, faulty);
      }
    }

    method NormalizeChange(change: RoleChange) returns (r: Result<RoleChange, Error>)
      ensures r == NormalizedChange(change)
    {
      var update := RoleChange(None, None, None);
      if change.name.Some? {
        var name := NormalizeName(change.name.value);
        if name.Err? {
          return Err(name.error);
        }
        update := update.(name := Some(name.value));
      }
      if change.description.Some? {
        var description := NormalizedDescription(change.description.value);
        if description.Err? {
          return Err(description.error);
        }
        update := update.(description := Some(description.value));
      }
      if change.permissions.Some? {
        var permissions := NormalizePermissions(change.permissions.value);
        if permissions.None? {
          return Err(InvalidInput);
        }
        update := update.(permissions := Some(permissions.value));
      }
      return Ok(update);
    }

    method UpdateRole(actor: User, id: RoleId, change: RoleChange, faulty: bool) returns (r: Result<(), Error>)
      requires store == users.store
      modifies store
      ensures Served(old(store.Snapshot()), old(store.audit), store.Snapshot(), store.audit, r,
                     UpdateRoleRequest(actor, id, change), RoleUpdated(actor, id), faulty)
      ensures r == Err(Unauthorized) <==> !IsActive(old(store.Snapshot()), actor)
      ensures r == Err(Forbidden) <==> IsActive(old(store.Snapshot()), actor) && !HasGrant(old(store.Snapshot()), actor, "roles:manage")
    {
      RefusedActorsIff(store.Snapshot(), UpdateRoleRequest(actor, id, change));
      var caller := users.Authorize(actor, "roles:manage");
      if caller.Err? {
        return Err(caller.error);
      }
      if change.name.None? && change.description.None? && change.permissions.None? {
        return Err(InvalidInput);
      }
      if id !in store.roles {
        return Err(NotFound);
      }
      if store.roles[id].isSystem {
        return Err(SystemRole);
      }
      var update := NormalizeChange(change);
      if update.Err? {
        return Err(update.error);
      }
      var before := store.Snapshot();
      r := store.UpdateRole(id, update.value);
      if r.Ok? {
        r := store.RecordAndCommit(RoleUpdated(actor, id), before, faulty);
      }
    }

    method DeleteRole(actor: User, id: RoleId, faulty: bool) returns (r: Result<(), Error>)
      requires store == users.store
      modifies store
      ensures Served(old(store.Snapshot()), old(store.audit), store.Snapshot(), store.audit, r,
                     DeleteRoleRequest(actor, id), RoleDeleted(actor, id), faulty)
      ensures r == Err(Unauthorized) <==> !IsActive(old(store.Snapshot()), actor)
      ensures r == Err(Forbidden) <==> IsActive(old(store.Snapshot()), actor) && !HasGrant(old(store.Snapshot()), actor, "roles:manage")
    {
      RefusedActorsIff(store.Snapshot(), DeleteRoleRequest(actor, id));
      var caller := users.Authorize(actor, "roles:manage");
      if caller.Err? {
        return Err(caller.error);
      }
      if id !in store.roles {
        return Err(NotFound);
      }
      if store.roles[id].isSystem {
        return Err(SystemRole);
      }
      if exists pair :: pair in store.assignments && pair.1 == id {
        return Err(RoleInUse);
      }
      var before := store.Snapshot();
      var deleted := store.DeleteRole(id);
      if !deleted {
        return Err(RoleInUse);
      }
      r := store.RecordAndCommit(RoleDeleted(actor, id), before, faulty);
    }
  }
}
