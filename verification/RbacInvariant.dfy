// The referential invariant of the role store, and the proof that every
// statement keeps it whatever the session is. The declared foreign keys and
// unique indexes give part of it; that an assignment stays within its tenant and
// that no tenant owns a reserved name is what the statements themselves add.
module RbacInvariant {
  import opened Sql
  import opened Rbac

  ghost predicate RolesOk(db: Db) {
    && (forall r | r in db.roles && db.roles[r].tenant.Some? ::
      db.roles[r].tenant.value in db.tenants && !IsBuiltinRole(db.roles[r].name))
    && (forall r, q | r in db.roles && q in db.roles
      && db.roles[r].name == db.roles[q].name && db.roles[r].tenant == db.roles[q].tenant :: r == q)
  }

  ghost predicate ProjectsOk(db: Db) {
    && NIL_UUID !in db.projects
    && (forall p | p in db.projects :: db.projects[p].tenant in db.tenants)
    && (forall p, q | p in db.projects && q in db.projects
      && db.projects[p].tenant == db.projects[q].tenant && db.projects[p].slug == db.projects[q].slug :: p == q)
  }

  ghost predicate PermissionsOk(db: Db) {
    && (forall p, q | p in db.permissions && q in db.permissions && db.permissions[p] == db.permissions[q] :: p == q)
    && (forall rp | rp in db.rolePermissions :: rp.0 in db.roles && rp.1 in db.permissions)
  }

  // A role is usable in a tenant when it is a template or the tenant's own.
  ghost predicate UsableIn(db: Db, role: RoleId, tenant: Uuid) {
    role in db.roles && (db.roles[role].tenant == None || db.roles[role].tenant == Some(tenant))
  }

  ghost predicate AssignmentOk(db: Db, a: Assignment) {
    && a.user in db.users
    && a.tenant in db.tenants
    && UsableIn(db, a.role, a.tenant)
    && (a.project.Some? ==> ProjectInTenant(db, a.project.value, a.tenant))
  }

  ghost predicate AssignmentsOk(db: Db) {
    && (forall a | a in db.assignments :: AssignmentOk(db, a))
    && (forall a, b | a in db.assignments && b in db.assignments && UniqueKey(a) == UniqueKey(b) :: a == b)
  }

  ghost predicate UsersOk(db: Db) {
    && (forall m | m in db.memberships :: m.0 in db.users && m.1 in db.tenants)
    && (forall u, v | u in db.users && v in db.users && db.users[u] == db.users[v] :: u == v)
    && (forall t, q | t in db.tenants && q in db.tenants && db.tenants[t].slug == db.tenants[q].slug :: t == q)
  }

  ghost predicate Inv(db: Db) {
    && DEFAULT_TENANT in db.tenants
    && RolesOk(db)
    && ProjectsOk(db)
    && PermissionsOk(db)
    && AssignmentsOk(db)
    && UsersOk(db)
  }

  // ── Resolution under the invariant ────────────────────────

  lemma OwnRoleIsUnique(db: Db, s: Session, name: string, tenant: Uuid, r: RoleId)
    requires Inv(db) && r in OwnRoles(db, s, name, tenant)
    ensures OwnRoles(db, s, name, tenant) == {r} && Pick(OwnRoles(db, s, name, tenant)) == r
  {
  }

  lemma TemplateIsUnique(db: Db, s: Session, name: string, r: RoleId)
    requires Inv(db) && r in Templates(db, s, name)
    ensures Templates(db, s, name) == {r} && Pick(Templates(db, s, name)) == r
  {
  }

  lemma OwnRolesAtMostOne(db: Db, s: Session, name: string, tenant: Uuid)
    requires Inv(db)
    ensures |OwnRoles(db, s, name, tenant)| <= 1
  {
    var own := OwnRoles(db, s, name, tenant);
    if own != {} {
      var r :| r in own;
      OwnRoleIsUnique(db, s, name, tenant, r);
    }
  }

  // ── Preservation ──────────────────────────────────────────

  // Assignments stay well-formed while the rows they refer to stay.
  lemma AssignmentsFrame(db: Db, db': Db)
    requires AssignmentsOk(db) && db'.assignments <= db.assignments
    requires db.users.Keys <= db'.users.Keys && db.tenants.Keys <= db'.tenants.Keys
    requires forall r | r in db.roles :: r in db'.roles && db'.roles[r].tenant == db.roles[r].tenant
    requires forall p | p in db.projects :: p in db'.projects && db'.projects[p].tenant == db.projects[p].tenant
    ensures AssignmentsOk(db')
  {
  }

  lemma AssignmentsAdded(db: Db, added: set<Assignment>)
    requires AssignmentsOk(db)
    requires forall a | a in added :: AssignmentOk(db, a) && !Conflicts(db, a)
    requires forall a, b | a in added && b in added && UniqueKey(a) == UniqueKey(b) :: a == b
    ensures AssignmentsOk(db.(assignments := db.assignments + added))
  {
  }

  // A write to users and assignments only.
  lemma OtherTablesStay(db: Db, db': Db)
    requires Inv(db) && db' == db.(users := db'.users, assignments := db'.assignments)
    requires UsersOk(db') && AssignmentsOk(db')
    ensures Inv(db')
  {
    hide UsersOk, AssignmentsOk;
  }

  lemma AssignRoleKeepsInvariant(db: Db, s: Session, user: Uuid, name: string, tenant: Uuid, project: Option<Uuid>)
    requires Inv(db)
    requires project.Some? ==> ProjectInTenant(db, project.value, tenant)
    ensures Inv(After(db, AssignRole(db, s, user, name, tenant, project)))
  {
    var resolved := ResolveRole(db, s, name, tenant);
    if resolved.Some? {
      var a := Assignment(user, resolved.value, tenant, project);
      var tx := InsertAssignment(db, s, a);
      if tx.Commit? && tx.db != db {
        AssignmentsAdded(db, {a});
        assert UsersOk(tx.db);
        hide RolesOk, ProjectsOk, PermissionsOk, AssignmentsOk, UsersOk;
        OtherTablesStay(db, tx.db);
      }
    }
  }

  lemma RevokeRoleKeepsInvariant(db: Db, s: Session, user: Uuid, name: string, tenant: Uuid, project: Option<Uuid>)
    requires Inv(db)
    ensures Inv(After(db, RevokeRole(db, s, user, name, tenant, project)))
  {
    hide VisibleRoles, Permits;
    FewerAssignmentsKeepInvariant(db, After(db, RevokeRole(db, s, user, name, tenant, project)).assignments);
  }

  lemma FewerAssignmentsKeepInvariant(db: Db, assignments: set<Assignment>)
    requires Inv(db) && assignments <= db.assignments
    ensures Inv(db.(assignments := assignments))
  {
    var db' := db.(assignments := assignments);
    AssignmentsFrame(db, db');
    assert UsersOk(db');
    hide RolesOk, ProjectsOk, PermissionsOk, AssignmentsOk, UsersOk;
    OtherTablesStay(db, db');
  }

  lemma CreateRoleKeepsInvariant(db: Db, s: Session, id: RoleId, name: string, description: string, tenant: Uuid)
    requires Inv(db) && !IsBuiltinRole(name)
    ensures Inv(After(db, CreateRole(db, s, id, name, description, tenant)))
  {
    if CreateRole(db, s, id, name, description, tenant).Commit? {
      NewRoleIsIndependent(db, id, RoleRow(name, description, Some(tenant)));
    }
  }

  lemma NewRoleIsIndependent(db: Db, id: RoleId, row: RoleRow)
    requires Inv(db) && id !in db.roles
    requires row.tenant.Some? ==> row.tenant.value in db.tenants && !IsBuiltinRole(row.name)
    requires forall r | r in db.roles :: !(db.roles[r].name == row.name && db.roles[r].tenant == row.tenant)
    ensures Inv(db.(roles := db.roles[id := row]))
  {
    var db' := db.(roles := db.roles[id := row]);
    assert RolesOk(db');
    AssignmentsFrame(db, db');
  }

  lemma UpdateRoleKeepsInvariant(db: Db, s: Session, name: string, description: string, tenant: Uuid)
    requires Inv(db)
    ensures Inv(After(db, UpdateRole(db, s, name, description, tenant)))
  {
  }

  lemma DeleteRoleKeepsInvariant(db: Db, s: Session, name: string, tenant: Uuid)
    requires Inv(db)
    ensures Inv(After(db, DeleteRole(db, s, name, tenant)))
  {
  }

  lemma GrantPermissionKeepsInvariant(db: Db, s: Session, role: string, permission: string, tenant: Uuid)
    requires Inv(db)
    ensures Inv(After(db, GrantPermission(db, s, role, permission, tenant)))
  {
  }

  lemma RevokePermissionKeepsInvariant(db: Db, s: Session, role: string, permission: string, tenant: Uuid)
    requires Inv(db)
    ensures Inv(After(db, RevokePermission(db, s, role, permission, tenant)))
  {
    hide OwnRoles;
    FewerGrantsKeepInvariant(db, After(db, RevokePermission(db, s, role, permission, tenant)).rolePermissions);
  }

  lemma FewerGrantsKeepInvariant(db: Db, grants: set<(RoleId, PermId)>)
    requires Inv(db) && grants <= db.rolePermissions
    ensures Inv(db.(rolePermissions := grants))
  {
    AssignmentsFrame(db, db.(rolePermissions := grants));
  }

  lemma CreateProjectKeepsInvariant(db: Db, s: Session, id: RandomUuid, slug: string, name: string, tenant: Uuid)
    requires Inv(db)
    ensures Inv(After(db, CreateProject(db, s, id, slug, name, tenant)))
  {
    var tx := CreateProject(db, s, id, slug, name, tenant);
    if tx.Commit? {
      NewProjectIsIndependent(db, id, ProjectRow(tenant, slug, name));
    }
  }

  lemma NewProjectIsIndependent(db: Db, id: RandomUuid, row: ProjectRow)
    requires Inv(db) && id !in db.projects && row.tenant in db.tenants
    requires forall p | p in db.projects :: !(db.projects[p].tenant == row.tenant && db.projects[p].slug == row.slug)
    ensures Inv(db.(projects := db.projects[id := row]))
  {
    var db' := db.(projects := db.projects[id := row]);
    assert ProjectsOk(db');
    AssignmentsFrame(db, db');
  }

  lemma MembershipKeepsInvariant(db: Db, s: Session, user: Uuid, tenant: Uuid)
    requires Inv(db)
    ensures Inv(After(db, AddMember(db, s, user, tenant)))
    ensures Inv(After(db, RemoveMember(db, s, user, tenant)))
  {
    var added := AddMember(db, s, user, tenant);
    if added.Commit? && added.db != db {
      MembershipsAreIndependent(db, db.memberships[(user, tenant) := true]);
    }
    MembershipsAreIndependent(db, db.memberships - {(user, tenant)});
  }

  // No other table refers to memberships.
  lemma MembershipsAreIndependent(db: Db, memberships: map<(Uuid, Uuid), bool>)
    requires Inv(db)
    requires forall m | m in memberships :: m.0 in db.users && m.1 in db.tenants
    ensures Inv(db.(memberships := memberships))
  {
  }

  lemma CreateTenantKeepsInvariant(db: Db, id: RandomUuid, slug: string, name: string, creator: Uuid)
    requires Inv(db)
    ensures Inv(After(db, CreateTenantWithAdmin(db, id, slug, name, creator)))
  {
    hide Inv, FirstAdminRows;
    var tx := CreateTenantWithAdmin(db, id, slug, name, creator);
    if tx.Commit? {
      var db1 := db.(tenants := db.tenants[id := TenantRow(slug, name, true)]);
      NewTenantIsIndependent(db, id, TenantRow(slug, name, true));
      MembershipKeepsInvariant(db1, Bypass, creator, id);
      FirstAdminKeepsInvariant(After(db1, AddMember(db1, Bypass, creator, id)), id, creator);
    }
  }

  lemma NewTenantIsIndependent(db: Db, id: RandomUuid, row: TenantRow)
    requires Inv(db) && id !in db.tenants
    requires forall t | t in db.tenants :: db.tenants[t].slug != row.slug
    ensures Inv(db.(tenants := db.tenants[id := row]))
  {
    AssignmentsFrame(db, db.(tenants := db.tenants[id := row]));
  }

  lemma FirstAdminKeepsInvariant(db: Db, tenant: Uuid, creator: Uuid)
    requires Inv(db) && creator in db.users && tenant in db.tenants
    ensures Inv(db.(assignments := db.assignments + FirstAdminRows(db, creator, tenant)))
  {
    AssignmentsAdded(db, FirstAdminRows(db, creator, tenant));
  }

  lemma DeleteUserKeepsInvariant(db: Db, user: Uuid)
    requires Inv(db)
    ensures Inv(After(db, DeleteUser(db, user)))
  {
  }

  // Registration selects the role by name alone. It keeps the invariant exactly
  // when no tenant other than the default one owns a visible role of that name.
  ghost predicate ForeignRoleNamed(db: Db, s: Session, name: string) {
    exists r | r in VisibleRoles(db, s, name) :: !UsableIn(db, r, DEFAULT_TENANT)
  }

  lemma CreateUserKeepsInvariantExactly(db: Db, s: Session, id: RandomUuid, email: string, role: string)
    requires Inv(db)
    requires CreateUserWithRole(db, s, id, email, role).Commit?
    ensures Inv(After(db, CreateUserWithRole(db, s, id, email, role))) <==> !ForeignRoleNamed(db, s, role)
  {
    if ForeignRoleNamed(db, s, role) {
      ForeignRoleBreaksInvariant(db, s, id, email, role);
    } else {
      UsableRolesKeepInvariant(db, s, id, email, role);
    }
  }

  lemma ForeignRoleBreaksInvariant(db: Db, s: Session, id: RandomUuid, email: string, role: string)
    requires Inv(db) && ForeignRoleNamed(db, s, role)
    requires CreateUserWithRole(db, s, id, email, role).Commit?
    ensures !Inv(CreateUserWithRole(db, s, id, email, role).db)
  {
    var db' := CreateUserWithRole(db, s, id, email, role).db;
    var r :| r in VisibleRoles(db, s, role) && !UsableIn(db, r, DEFAULT_TENANT);
    var a := Assignment(id, r, DEFAULT_TENANT, None);
    UnknownUserHasNoConflict(db, a);
    assert a in db'.assignments && !AssignmentOk(db', a);
  }

  lemma UnknownUserHasNoConflict(db: Db, a: Assignment)
    requires Inv(db) && a.user !in db.users
    ensures !Conflicts(db, a)
  {
  }

  lemma UsableRolesKeepInvariant(db: Db, s: Session, id: RandomUuid, email: string, role: string)
    requires Inv(db) && !ForeignRoleNamed(db, s, role)
    requires CreateUserWithRole(db, s, id, email, role).Commit?
    ensures Inv(CreateUserWithRole(db, s, id, email, role).db)
  {
    var db1 := db.(users := db.users[id := email]);
    var db' := CreateUserWithRole(db, s, id, email, role).db;
    NewUserIsIndependent(db, id, email);
    var added := set r | r in VisibleRoles(db, s, role) :: Assignment(id, r, DEFAULT_TENANT, None);
    forall a | a in added
      ensures AssignmentOk(db1, a) && !Conflicts(db1, a) && !Conflicts(db, a)
    {
      UnknownUserHasNoConflict(db, a);
    }
    hide RolesOk, ProjectsOk, PermissionsOk, AssignmentsOk, UsersOk, AssignmentOk, Conflicts;
    AssignmentsAdded(db1, added);
    assert db'.assignments == db1.assignments + added;
    UsersIgnoreAssignments(db1, db');
    OtherTablesStay(db, db');
  }

  lemma NewUserIsIndependent(db: Db, id: Uuid, email: string)
    requires Inv(db) && id !in db.users && forall u | u in db.users :: db.users[u] != email
    ensures var db1 := db.(users := db.users[id := email]); UsersOk(db1) && AssignmentsOk(db1)
  {
    AssignmentsFrame(db, db.(users := db.users[id := email]));
  }

  lemma UsersIgnoreAssignments(db: Db, db': Db)
    requires UsersOk(db) && db' == db.(assignments := db'.assignments)
    ensures UsersOk(db')
  {
  }

  // It happens: `viewer` is not reserved, so another tenant may create a role of
  // that name, and then the demo user, started with `viewer` on an unrestricted
  // connection, is assigned that tenant's role in the default tenant.
  lemma ForeignViewerIsAssigned(
    db: Db, tenant: Uuid, id: RoleId, description: string, user: RandomUuid, email: string)
    requires Inv(db) && tenant != DEFAULT_TENANT
    requires CreateRole(db, Enforced(Some(tenant)), id, "viewer", description, tenant).Commit?
    requires user !in db.users && forall u | u in db.users :: db.users[u] != email
    ensures !IsBuiltinRole("viewer")
    ensures var created := CreateRole(db, Enforced(Some(tenant)), id, "viewer", description, tenant).db;
            var started := CreateUserWithRole(created, Bypass, user, email, "viewer");
            && Inv(created) && started.Commit? && !Inv(started.db)
            && Assignment(user, id, DEFAULT_TENANT, None) in started.db.assignments
  {
    var created := CreateRole(db, Enforced(Some(tenant)), id, "viewer", description, tenant).db;
    CreateRoleKeepsInvariant(db, Enforced(Some(tenant)), id, "viewer", description, tenant);
    assert id in VisibleRoles(created, Bypass, "viewer") && !UsableIn(created, id, DEFAULT_TENANT);
    UnknownUserHasNoConflict(created, Assignment(user, id, DEFAULT_TENANT, None));
    CreateUserKeepsInvariantExactly(created, Bypass, user, email, "viewer");
  }

  // The reserved names and an enforced default-tenant session both rule that out.
  lemma RegistrationIsSafe(db: Db, s: Session, id: RandomUuid, email: string, role: string)
    requires Inv(db)
    requires IsBuiltinRole(role) || s == Enforced(Some(DEFAULT_TENANT))
    ensures Inv(After(db, CreateUserWithRole(db, s, id, email, role)))
  {
    if CreateUserWithRole(db, s, id, email, role).Commit? {
      CreateUserKeepsInvariantExactly(db, s, id, email, role);
    }
  }
}
