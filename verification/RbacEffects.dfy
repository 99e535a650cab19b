// What each write of the role store achieves, stated through the queries that
// decide access rather than through the tables it touches.
module RbacEffects {
  import opened Sql
  import opened Rbac
  import opened RbacInvariant
  import opened RbacRls

  // ── Scoped reads ──────────────────────────────────────────

  predicate MayRead(s: Session, tenant: Uuid) {
    s == Bypass || s == Enforced(Some(tenant))
  }

  // A scope reads the assignments without a project and those of its own project; a
  // session set to another tenant, or to none, reads nothing.
  lemma ScopedReads(db: Db, s: Session, user: Uuid, tenant: Uuid, project: Option<Uuid>)
    ensures ScopedAssignments(db, s, user, tenant, project) ==
            if !MayRead(s, tenant) then {}
            else set a | a in db.assignments && a.user == user && a.tenant == tenant
                         && (a.project == None || a.project == project)
  {
  }

  // The role names and permissions of a scope, spelled out. With the policies enforced
  // the name of another tenant's role is not shown even to a user assigned to it.
  lemma ScopedRoleNames(
    db: Db, s: Session, user: Uuid, tenant: Uuid, project: Option<Uuid>, a: Assignment, name: string)
    ensures (a, name) in RolesScoped(db, s, user, tenant, project) <==>
            && MayRead(s, tenant)
            && a in db.assignments && a.user == user && a.tenant == tenant
            && (a.project == None || a.project == project) && a.role in db.roles && db.roles[a.role].name == name
            && (s == Bypass || db.roles[a.role].tenant == None || db.roles[a.role].tenant == Some(tenant))
  {
    ScopedReads(db, s, user, tenant, project);
    hide ScopedAssignments;
  }

  lemma ScopedPermissionNames(db: Db, s: Session, user: Uuid, tenant: Uuid, project: Option<Uuid>, name: string)
    ensures name in PermissionsScoped(db, s, user, tenant, project) <==>
            && MayRead(s, tenant)
            && exists b, p | b in db.assignments && p in db.permissions ::
                 && b.user == user && b.tenant == tenant && (b.project == None || b.project == project)
                 && (b.role, p) in db.rolePermissions && db.permissions[p] == name
  {
    ScopedReads(db, s, user, tenant, project);
    hide ScopedAssignments;
  }

  // The projects of a tenant, as the sessions that may read them list them.
  lemma ProjectsListed(db: Db, s: Session, tenant: Uuid, p: Uuid)
    ensures var listed := ProjectsOfTenant(db, s, tenant);
            && (p in listed <==> MayRead(s, tenant) && p in db.projects && db.projects[p].tenant == tenant)
            && (p in listed ==> listed[p] == db.projects[p])
  {
  }

  // ── Assigning ─────────────────────────────────────────────

  // A row with the same key is the same row: no project has the sentinel's id.
  lemma AssignedRows(db: Db, s: Session, user: Uuid, name: string, tenant: Uuid, project: Option<Uuid>)
    requires Inv(db) && AssignRole(db, s, user, name, tenant, project).Commit?
    requires project.Some? ==> ProjectInTenant(db, project.value, tenant)
    ensures var after := AssignRole(db, s, user, name, tenant, project).db;
            var role := ResolveRole(db, s, name, tenant);
            && after == db.(assignments := after.assignments)
            && after.assignments == db.assignments +
                 (if role.Some? then {Assignment(user, role.value, tenant, project)} else {})
  {
    hide ResolveRole;
    var role := ResolveRole(db, s, name, tenant);
    if role.Some? {
      var a := Assignment(user, role.value, tenant, project);
      if b :| b in db.assignments && UniqueKey(b) == UniqueKey(a) {
        assert AssignmentOk(db, b);
        assert b == a;
      }
    }
  }

  // An insert of an existing row does nothing, and one without a project stands for the
  // sentinel's id as well; any other needs its user, tenant and project to be there.
  lemma AssignCommitsExactly(db: Db, user: Uuid, name: string, tenant: Uuid, project: Option<Uuid>)
    requires Inv(db)
    ensures var tx := AssignRole(db, Enforced(Some(tenant)), user, name, tenant, project);
            var role := ResolveRole(db, Enforced(Some(tenant)), name, tenant);
            && (tx.Commit? <==>
                  || role.None?
                  || Assignment(user, role.value, tenant, if project == Some(NIL_UUID) then None else project) in db.assignments
                  || (user in db.users && tenant in db.tenants && (project.Some? ==> project.value in db.projects)))
            && (tx.Commit? && project == Some(NIL_UUID) ==> tx.db == db)
  {
    var role := ResolveRole(db, Enforced(Some(tenant)), name, tenant);
    if role.Some? {
      ResolvedIsARole(db, Enforced(Some(tenant)), name, tenant);
      ConflictsExactly(db, user, role.value, tenant, project);
    }
    hide ResolveRole, Conflicts, ProjectInTenant;
  }

  lemma ResolvedIsARole(db: Db, s: Session, name: string, tenant: Uuid)
    requires ResolveRole(db, s, name, tenant).Some?
    ensures ResolveRole(db, s, name, tenant).value in db.roles
  {
  }

  lemma ConflictsExactly(db: Db, user: Uuid, role: RoleId, tenant: Uuid, project: Option<Uuid>)
    requires Inv(db)
    ensures Conflicts(db, Assignment(user, role, tenant, project)) <==>
            Assignment(user, role, tenant, if project == Some(NIL_UUID) then None else project) in db.assignments
  {
    var a := Assignment(user, role, tenant, project);
    var same := Assignment(user, role, tenant, if project == Some(NIL_UUID) then None else project);
    if b :| b in db.assignments && UniqueKey(b) == UniqueKey(a) {
      assert AssignmentOk(db, b);
      assert b == same;
    }
    assert UniqueKey(same) == UniqueKey(a);
  }

  function RoleGrants(db: Db, role: RoleId): set<string> {
    set p | p in db.permissions && (role, p) in db.rolePermissions :: db.permissions[p]
  }

  // Assigning a role in a scope brings its permissions to the scopes of the same
  // project, or to all of the tenant's when no project is named, and to no other.
  lemma AssignmentReachesScope(
    db: Db, user: Uuid, name: string, tenant: Uuid, project: Option<Uuid>, other: Uuid, where: Option<Uuid>)
    requires Inv(db) && AssignRole(db, Enforced(Some(tenant)), user, name, tenant, project).Commit?
    requires project.Some? ==> ProjectInTenant(db, project.value, tenant)
    ensures var after := AssignRole(db, Enforced(Some(tenant)), user, name, tenant, project).db;
            var role := ResolveRole(db, Enforced(Some(tenant)), name, tenant);
            PermissionsScoped(after, Bypass, user, other, where) ==
              PermissionsScoped(db, Bypass, user, other, where) +
              (if role.Some? && other == tenant && (project == None || where == project)
               then RoleGrants(db, role.value) else {})
  {
    hide AssignRole, ResolveRole, Inv, ScopedAssignments, PermissionsScoped, PermissionsThrough;
    var s := Enforced(Some(tenant));
    var after := AssignRole(db, s, user, name, tenant, project).db;
    var role := ResolveRole(db, s, name, tenant);
    AssignedRows(db, s, user, name, tenant, project);
    ScopedReads(db, Bypass, user, other, where);
    ScopedReads(after, Bypass, user, other, where);
    var rows := ScopedAssignments(db, Bypass, user, other, where);
    ScopedIsThrough(db, user, other, where);
    ScopedIsThrough(after, user, other, where);
    SameGrants(db, after, ScopedAssignments(after, Bypass, user, other, where));
    if role.Some? && other == tenant && (project == None || where == project) {
      var a := Assignment(user, role.value, tenant, project);
      assert ScopedAssignments(after, Bypass, user, other, where) == rows + {a};
      OneMoreRow(db, rows, a);
    } else {
      assert ScopedAssignments(after, Bypass, user, other, where) == rows;
    }
  }

  // What a set of assignments permits.
  function PermissionsThrough(db: Db, rows: set<Assignment>): set<string> {
    set a, p | a in rows && p in db.permissions && (a.role, p) in db.rolePermissions :: db.permissions[p]
  }

  lemma ScopedIsThrough(db: Db, user: Uuid, tenant: Uuid, project: Option<Uuid>)
    ensures PermissionsScoped(db, Bypass, user, tenant, project) ==
            PermissionsThrough(db, ScopedAssignments(db, Bypass, user, tenant, project))
  {
  }

  lemma SameGrants(db: Db, db': Db, rows: set<Assignment>)
    requires db'.permissions == db.permissions && db'.rolePermissions == db.rolePermissions
    ensures PermissionsThrough(db', rows) == PermissionsThrough(db, rows)
  {
  }

  lemma OneMoreRow(db: Db, rows: set<Assignment>, a: Assignment)
    ensures PermissionsThrough(db, rows + {a}) == PermissionsThrough(db, rows) + RoleGrants(db, a.role)
  {
  }

  ghost predicate HoldsOne(rows: set<Assignment>, roles: set<RoleId>) {
    exists a | a in rows :: a.role in roles
  }

  // The user holds, in this scope, the tenant's own role of that name.
  ghost predicate HoldsOwnRole(db: Db, user: Uuid, tenant: Uuid, project: Option<Uuid>, role: string) {
    HoldsOne(ScopedAssignments(db, Bypass, user, tenant, project), OwnRoles(db, Bypass, role, tenant))
  }

  ghost predicate PermissionExists(db: Db, permission: string) {
    exists p | p in db.permissions :: db.permissions[p] == permission
  }

  // Granting adds one permission, to exactly the sets of assignments with the role.
  lemma GrantReaches(db: Db, tenant: Uuid, role: string, permission: string, rows: set<Assignment>)
    ensures var db' := After(db, GrantPermission(db, Enforced(Some(tenant)), role, permission, tenant));
            && db' == db.(rolePermissions := db'.rolePermissions)
            && PermissionsThrough(db', rows) == PermissionsThrough(db, rows) +
                 (if HoldsOne(rows, OwnRoles(db, Bypass, role, tenant)) && PermissionExists(db, permission)
                  then {permission} else {})
  {
    OwnAndTemplatesSurvive(db, tenant, role);
    hide OwnRoles;
  }

  // Granting adds one permission, to exactly the holders of the tenant's role.
  lemma GrantEffect(
    db: Db, tenant: Uuid, role: string, permission: string, user: Uuid, project: Option<Uuid>)
    ensures var db' := After(db, GrantPermission(db, Enforced(Some(tenant)), role, permission, tenant));
      PermissionsScoped(db', Bypass, user, tenant, project) == PermissionsScoped(db, Bypass, user, tenant, project) +
        (if HoldsOwnRole(db, user, tenant, project, role) && PermissionExists(db, permission) then {permission} else {})
  {
    var db' := After(db, GrantPermission(db, Enforced(Some(tenant)), role, permission, tenant));
    var rows := ScopedAssignments(db, Bypass, user, tenant, project);
    GrantReaches(db, tenant, role, permission, rows);
    assert ScopedAssignments(db', Bypass, user, tenant, project) == rows;
    assert PermissionsScoped(db, Bypass, user, tenant, project) == PermissionsThrough(db, rows);
    assert PermissionsScoped(db', Bypass, user, tenant, project) == PermissionsThrough(db', rows);
  }

  // Revoking a permission takes a fresh grant back.
  lemma UngrantUndoesGrant(db: Db, tenant: Uuid, role: string, permission: string)
    requires Inv(db)
    requires forall rp | rp in db.rolePermissions ::
      !(rp.0 in OwnRoles(db, Bypass, role, tenant) && db.permissions[rp.1] == permission)
    ensures var s := Enforced(Some(tenant));
      var granted := After(db, GrantPermission(db, s, role, permission, tenant));
      RevokePermission(granted, s, role, permission, tenant) == Commit(db)
  {
    var s := Enforced(Some(tenant));
    OwnAndTemplatesSurvive(db, tenant, role);
    OwnRolesAtMostOne(db, s, role, tenant);
    PermissionIsUnique(db, permission);
    var db1 := After(db, GrantPermission(db, s, role, permission, tenant));
    assert OwnRoles(db1, s, role, tenant) == OwnRoles(db, s, role, tenant);
    hide Inv, OwnRoles;
    var back := RevokePermission(db1, s, role, permission, tenant);
    assert back.Commit?;
    assert back.db.rolePermissions == db.rolePermissions;
  }

  lemma PermissionIsUnique(db: Db, permission: string)
    requires Inv(db)
    ensures |set p | p in db.permissions && db.permissions[p] == permission| <= 1
  {
    var named := set p | p in db.permissions && db.permissions[p] == permission;
    if named != {} {
      var p :| p in named;
      PickOfSingleton(named, p);
    }
  }

  // A new role of the tenant shadows a template of the same name, there only.
  lemma CreateRoleShadows(
    db: Db, tenant: Uuid, id: RoleId, name: string, description: string, anyName: string, anyTenant: Uuid)
    requires Inv(db)
    requires CreateRole(db, Enforced(Some(tenant)), id, name, description, tenant).Commit?
    ensures var db' := CreateRole(db, Enforced(Some(tenant)), id, name, description, tenant).db;
      ResolveRole(db', Enforced(Some(anyTenant)), anyName, anyTenant) ==
        if anyName == name && anyTenant == tenant then Some(id)
        else ResolveRole(db, Enforced(Some(anyTenant)), anyName, anyTenant)
  {
    var db' := CreateRole(db, Enforced(Some(tenant)), id, name, description, tenant).db;
    var s := Enforced(Some(anyTenant));
    assert Templates(db', s, anyName) == Templates(db, s, anyName);
    if anyName == name && anyTenant == tenant {
      assert OwnRoles(db', s, anyName, anyTenant) == {id};
    } else {
      assert OwnRoles(db', s, anyName, anyTenant) == OwnRoles(db, s, anyName, anyTenant);
    }
  }

  // Deleting takes exactly the role, its assignments and its grants: deleting
  // right after creating is the identity, and no own role of the name remains.
  lemma DeleteUndoesCreate(db: Db, tenant: Uuid, id: RoleId, name: string, description: string)
    requires Inv(db)
    requires CreateRole(db, Enforced(Some(tenant)), id, name, description, tenant).Commit?
    ensures var s := Enforced(Some(tenant));
      DeleteRole(CreateRole(db, s, id, name, description, tenant).db, s, name, tenant) == Commit(db)
  {
    var s := Enforced(Some(tenant));
    var db1 := CreateRole(db, s, id, name, description, tenant).db;
    assert OwnRoles(db1, s, name, tenant) == {id};
    var db2 := DeleteRole(db1, s, name, tenant).db;
    assert db2.roles == db.roles;
    forall a | a in db.assignments
      ensures a.role != id
    {
      assert AssignmentOk(db, a);
    }
    assert db2.assignments == db.assignments;
    assert db2.rolePermissions == db.rolePermissions;
  }

  lemma DeleteRoleEffect(db: Db, tenant: Uuid, name: string, user: Uuid, project: Option<Uuid>)
    requires Inv(db)
    ensures var db' := After(db, DeleteRole(db, Enforced(Some(tenant)), name, tenant));
      && !TenantRoleExists(db', name, tenant)
      && (forall a :: a in db'.assignments <==> a in db.assignments && a.role !in OwnRoles(db, Bypass, name, tenant))
      && RolesScoped(db', Bypass, user, tenant, project) ==
        set row | row in RolesScoped(db, Bypass, user, tenant, project) && row.0.role !in OwnRoles(db, Bypass, name, tenant)
  {
    OwnAndTemplatesSurvive(db, tenant, name);
    var db' := After(db, DeleteRole(db, Enforced(Some(tenant)), name, tenant));
    assert OwnRoles(db', Bypass, name, tenant) == {};
  }

  // A description is not access: every answer stays the same.
  lemma UpdateRoleEffect(
    db: Db, tenant: Uuid, name: string, description: string, s: Session, user: Uuid, other: Uuid, project: Option<Uuid>)
    ensures var db' := After(db, UpdateRole(db, Enforced(Some(tenant)), name, description, tenant));
      && (forall r | r in OwnRoles(db, Bypass, name, tenant) :: r in db'.roles && db'.roles[r].description == description)
      && RolesScoped(db', s, user, other, project) == RolesScoped(db, s, user, other, project)
      && PermissionsScoped(db', s, user, other, project) == PermissionsScoped(db, s, user, other, project)
  {
  }

  // The creator of a tenant is its member and holds there the admin template and
  // nothing else, in every project.
  lemma CreateTenantEffect(
    db: Db, id: RandomUuid, slug: string, name: string, creator: Uuid, admin: RoleId, project: Option<Uuid>)
    requires Inv(db) && admin in Templates(db, Bypass, "admin")
    requires CreateTenantWithAdmin(db, id, slug, name, creator).Commit?
    ensures var db' := CreateTenantWithAdmin(db, id, slug, name, creator).db;
      && IsActiveMember(db', creator, id)
      && ScopedAssignments(db', Bypass, creator, id, project) == {Assignment(creator, admin, id, None)}
      && RolesScoped(db', Enforced(Some(id)), creator, id, project) == {(Assignment(creator, admin, id, None), "admin")}
  {
    hide Inv;
    TemplateIsUnique(db, Bypass, "admin", admin);
    NothingInAbsentTenant(db, id);
    var db' := CreateTenantWithAdmin(db, id, slug, name, creator).db;
    var a := Assignment(creator, admin, id, None);
    var db1 := db.(tenants := db.tenants[id := TenantRow(slug, name, true)]);
    var db2 := After(db1, AddMember(db1, Bypass, creator, id));
    assert Templates(db2, Bypass, "admin") == Templates(db, Bypass, "admin");
    assert !Conflicts(db2, a);
    assert FirstAdminRows(db2, creator, id) == {a};
    assert db'.assignments == db.assignments + {a};
    assert ScopedAssignments(db', Bypass, creator, id, project) == {a};
    assert ScopedAssignments(db', Enforced(Some(id)), creator, id, project) == {a};
    assert (a, "admin") in RolesScoped(db', Enforced(Some(id)), creator, id, project);
  }

  lemma NothingInAbsentTenant(db: Db, tenant: Uuid)
    requires Inv(db) && tenant !in db.tenants
    ensures forall a | a in db.assignments :: a.tenant != tenant
    ensures forall u: Uuid :: (u, tenant) !in db.memberships
  {
  }

  // A registered user holds the `user` template in the default tenant and nothing
  // anywhere else.
  lemma RegisterEffect(
    db: Db, id: RandomUuid, email: string, template: RoleId, tenant: Uuid, project: Option<Uuid>)
    requires Inv(db) && template in Templates(db, Bypass, "user")
    requires CreateUserWithRole(db, Bypass, id, email, "user").Commit?
    ensures var db' := CreateUserWithRole(db, Bypass, id, email, "user").db;
      ScopedAssignments(db', Bypass, id, tenant, project) ==
        if tenant == DEFAULT_TENANT then {Assignment(id, template, DEFAULT_TENANT, None)} else {}
  {
    TemplateIsUnique(db, Bypass, "user", template);
    var db' := CreateUserWithRole(db, Bypass, id, email, "user").db;
    forall a | a in db.assignments
      ensures a.user != id
    {
      assert AssignmentOk(db, a);
    }
    assert forall r | r in VisibleRoles(db, Bypass, "user") :: db.roles[r].tenant == None;
    assert VisibleRoles(db, Bypass, "user") == Templates(db, Bypass, "user");
    var a := Assignment(id, template, DEFAULT_TENANT, None);
    assert !Conflicts(db, a);
    assert db'.assignments == db.assignments + {a};
  }

  // Enrolling makes an active member unless a suspended membership was there;
  // leaving ends it either way.
  lemma MembershipEffect(db: Db, user: Uuid, tenant: Uuid)
    requires tenant in db.tenants && db.tenants[tenant].active && user in db.users
    ensures IsActiveMember(After(db, AddMember(db, Bypass, user, tenant)), user, tenant)
      <==> ((user, tenant) in db.memberships ==> db.memberships[(user, tenant)])
    ensures !IsActiveMember(After(db, RemoveMember(db, Bypass, user, tenant)), user, tenant)
  {
  }

  // A new project is listed in its tenant, usable in assignments there and in no
  // other tenant, and no other listing changes.
  lemma CreateProjectEffect(db: Db, tenant: Uuid, id: RandomUuid, slug: string, name: string, other: Uuid)
    requires CreateProject(db, Enforced(Some(tenant)), id, slug, name, tenant).Commit?
    ensures var db' := CreateProject(db, Enforced(Some(tenant)), id, slug, name, tenant).db;
      && ProjectsOfTenant(db', Enforced(Some(other)), other) ==
         (if other == tenant
          then ProjectsOfTenant(db, Enforced(Some(other)), other)[id := ProjectRow(tenant, slug, name)]
          else ProjectsOfTenant(db, Enforced(Some(other)), other))
      && (ProjectInTenant(db', id, other) <==> other == tenant)
  {
  }

  // ── When the inserts succeed ──────────────────────────────

  // A tenant may use a role name unless it has it already, whatever others use.
  lemma CreateRoleCommitsExactly(db: Db, id: RoleId, name: string, description: string, tenant: Uuid)
    ensures var tx := CreateRole(db, Enforced(Some(tenant)), id, name, description, tenant);
            && (tx.Commit? <==> id !in db.roles && tenant in db.tenants && !TenantRoleExists(db, name, tenant))
            && (tx.Commit? ==> tx.db == db.(roles := db.roles[id := RoleRow(name, description, Some(tenant))]))
  {
    OwnAndTemplatesSurvive(db, tenant, name);
    assert forall r | r in db.roles :: r in OwnRoles(db, Bypass, name, tenant) <==>
        db.roles[r].tenant == Some(tenant) && db.roles[r].name == name;
  }

  lemma CreateProjectCommitsExactly(db: Db, id: RandomUuid, slug: string, name: string, tenant: Uuid)
    ensures var tx := CreateProject(db, Enforced(Some(tenant)), id, slug, name, tenant);
            && (tx.Commit? <==>
                  && id !in db.projects && tenant in db.tenants
                  && forall p | p in ProjectsOfTenant(db, Bypass, tenant) :: db.projects[p].slug != slug)
            && (tx.Commit? ==> tx.db == db.(projects := db.projects[id := ProjectRow(tenant, slug, name)]))
  {
    assert forall p | p in db.projects :: p in ProjectsOfTenant(db, Bypass, tenant) <==> db.projects[p].tenant == tenant;
  }

  lemma CreateTenantCommitsExactly(db: Db, id: RandomUuid, slug: string, name: string, creator: Uuid)
    requires Inv(db)
    ensures var tx := CreateTenantWithAdmin(db, id, slug, name, creator);
            && (tx.Commit? <==> id !in db.tenants && creator in db.users && forall t | t in db.tenants :: db.tenants[t].slug != slug)
            && (tx.Commit? ==>
                  && tx.db.tenants == db.tenants[id := TenantRow(slug, name, true)]
                  && tx.db.memberships == db.memberships[(creator, id) := true]
                  && tx.db == db.(tenants := tx.db.tenants, memberships := tx.db.memberships, assignments := tx.db.assignments))
  {
    if id !in db.tenants {
      NothingInAbsentTenant(db, id);
    }
    hide Inv, FirstAdminRows;
  }

  // Whatever the session: the insert by role name needs the default tenant, and leave
  // to write there, exactly when it finds a role at all.
  lemma CreateUserCommitsExactly(db: Db, s: Session, id: RandomUuid, email: string, role: string)
    requires Inv(db)
    ensures var tx := CreateUserWithRole(db, s, id, email, role);
            var found := VisibleRoles(db, s, role);
            && (tx.Commit? <==>
                  && id !in db.users && (forall u | u in db.users :: db.users[u] != email)
                  && (found == {} || (DEFAULT_TENANT in db.tenants && MayRead(s, DEFAULT_TENANT))))
            && (tx.Commit? ==> tx.db == db.(users := db.users[id := email],
                  assignments := db.assignments + set r | r in found :: Assignment(id, r, DEFAULT_TENANT, None)))
  {
    hide VisibleRoles;
    if id !in db.users {
      forall a | a in db.assignments
        ensures a.user != id
      {
        assert AssignmentOk(db, a);
      }
    }
    hide Inv;
  }

  lemma AddMemberCommitsExactly(db: Db, user: Uuid, tenant: Uuid, s: Session)
    ensures var tx := AddMember(db, s, user, tenant);
            && (tx.Commit? <==> (user, tenant) in db.memberships || (user in db.users && tenant in db.tenants))
            && (tx.Commit? ==> tx.db == db.(memberships :=
                  if (user, tenant) in db.memberships then db.memberships else db.memberships[(user, tenant) := true]))
  {
  }

  // ── Nobody else is touched ────────────────────────────────

  lemma RemoveMemberTakesOne(db: Db, s: Session, user: Uuid, tenant: Uuid)
    ensures var db' := After(db, RemoveMember(db, s, user, tenant));
            && db' == db.(memberships := db'.memberships) && (user, tenant) !in db'.memberships
            && forall m | m != (user, tenant) ::
                 && (m in db'.memberships <==> m in db.memberships)
                 && (m in db.memberships ==> db'.memberships[m] == db.memberships[m])
  {
  }

  lemma DeleteUserTakesOne(db: Db, user: Uuid, other: Uuid)
    requires other != user
    ensures var db' := After(db, DeleteUser(db, user));
            && user !in db'.users && (other in db'.users <==> other in db.users)
            && (other in db.users ==> db'.users[other] == db.users[other])
            && (forall a: Assignment | a.user == other :: a in db'.assignments <==> a in db.assignments)
            && (forall t: Uuid ::
                  && ((other, t) in db'.memberships <==> (other, t) in db.memberships)
                  && ((other, t) in db.memberships ==> db'.memberships[(other, t)] == db.memberships[(other, t)]))
            && (forall a | a in db'.assignments :: a.user != user)
            && db' == db.(users := db'.users, assignments := db'.assignments, memberships := db'.memberships)
  {
  }

  lemma UpdateRoleTouchesOne(db: Db, tenant: Uuid, name: string, description: string, r: RoleId)
    requires r in db.roles && r !in OwnRoles(db, Bypass, name, tenant)
    ensures var db' := After(db, UpdateRole(db, Enforced(Some(tenant)), name, description, tenant));
            && r in db'.roles && db'.roles[r] == db.roles[r] && db' == db.(roles := db'.roles)
  {
    OwnAndTemplatesSurvive(db, tenant, name);
  }

  // ── Guards and listings ───────────────────────────────────

  // The guard of an assignment passes exactly when the name resolves.
  lemma RoleGuardMeansResolvable(db: Db, name: string, tenant: Uuid)
    ensures RoleInTenant(db, name, tenant) <==> ResolveRole(db, Enforced(Some(tenant)), name, tenant).Some?
    ensures RoleExists(db, name) <==> exists r | r in db.roles :: db.roles[r].name == name
  {
    OwnAndTemplatesSurvive(db, tenant, name);
    assert forall r | r in db.roles && db.roles[r].name == name :: r in VisibleRoles(db, Bypass, name);
  }

  // Both the membership and the tenant have to be there and not suspended.
  lemma ActiveMemberExactly(db: Db, user: Uuid, tenant: Uuid)
    ensures IsActiveMember(db, user, tenant) <==>
            && (user, tenant) in db.memberships && db.memberships[(user, tenant)] == true
            && tenant in db.tenants && db.tenants[tenant].active == true
  {
  }

  // The members of a tenant, each with the status of its membership there.
  lemma MembersListed(db: Db, s: Session, tenant: Uuid, user: Uuid)
    ensures var listed := MembersOfTenant(db, s, tenant);
            && (user in listed <==> user in db.users && (user, tenant) in db.memberships)
            && (user in listed ==> listed[user] == db.memberships[(user, tenant)])
  {
  }
}
