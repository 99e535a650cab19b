// Roles, permissions, projects and memberships of a multi-tenant store, the
// row-security policies on them, and every SQL statement that reads or writes
// them as one atomic step on the tables.
module Rbac {
  import opened Sql

  type RoleId = nat
  type PermId = nat

  datatype TenantRow = TenantRow(slug: string, name: string, active: bool)
  datatype ProjectRow = ProjectRow(tenant: Uuid, slug: string, name: string)
  datatype RoleRow = RoleRow(name: string, description: string, tenant: Option<Uuid>)
  datatype Assignment = Assignment(user: Uuid, role: RoleId, tenant: Uuid, project: Option<Uuid>)

  datatype Db = Db(
    users: map<Uuid, string>,                    // id -> email
    tenants: map<Uuid, TenantRow>,
    projects: map<Uuid, ProjectRow>,
    roles: map<RoleId, RoleRow>,
    permissions: map<PermId, string>,
    rolePermissions: set<(RoleId, PermId)>,
    assignments: set<Assignment>,                // table user_roles
    memberships: map<(Uuid, Uuid), bool>)        // (user, tenant) -> status = 'active'

  // ── Row security ──────────────────────────────────────────

  // Bypass is a superuser connection; Enforced runs under the policies with
  // app.tenant_id set to a tenant, or unset (NULL or the empty string).
  datatype Session = Bypass | Enforced(setting: Option<Uuid>)

  datatype Table =
    Roles | UserRoles | Projects |
    OauthClients | ApiKeys | RefreshTokens | Memberships | AuditEvents | Outbox

  // Policy as first installed: everything is visible while the setting is unset.
  function PolicyPermissiveWhenUnset(setting: Option<Uuid>, tenant: Option<Uuid>): Truth {
    Or(IsNull(setting), Or(IsNull(tenant), Equals(tenant, setting)))
  }

  // Policy after the fail-closed migration, for every table it lists.
  function PolicyFailClosed(setting: Option<Uuid>, tenant: Option<Uuid>): Truth {
    Or(IsNull(tenant), Equals(tenant, setting))
  }

  predicate Relaxed(t: Table) {
    t !in {Roles, UserRoles, Projects}
  }

  // Policy in force: relaxed tables are open, the others fail closed. The same
  // predicate serves as USING and as WITH CHECK.
  predicate Permits(s: Session, t: Table, tenant: Option<Uuid>) {
    s.Bypass? || Relaxed(t) || Holds(PolicyFailClosed(s.setting, tenant))
  }

  // ── Outcome of a transaction ──────────────────────────────

  datatype SqlError = UniqueViolation | ForeignKeyViolation | PolicyViolation | CardinalityViolation

  datatype Tx = Commit(db: Db) | Rollback(error: SqlError)

  function After(db: Db, tx: Tx): Db {
    if tx.Commit? then tx.db else db
  }

  // ── Row selections ────────────────────────────────────────

  predicate IsBuiltinRole(name: string) {
    name == "admin" || name == "user"
  }

  function VisibleRoles(db: Db, s: Session, name: string): set<RoleId> {
    set r | r in db.roles && Permits(s, Roles, db.roles[r].tenant) && db.roles[r].name == name
  }

  function OwnRoles(db: Db, s: Session, name: string, tenant: Uuid): set<RoleId> {
    set r | r in VisibleRoles(db, s, name) && Holds(Equals(db.roles[r].tenant, Some(tenant)))
  }

  function Templates(db: Db, s: Session, name: string): set<RoleId> {
    set r | r in VisibleRoles(db, s, name) && Holds(IsNull(db.roles[r].tenant))
  }

  // ORDER BY tenant_id NULLS LAST LIMIT 1: the tenant's own role, else a template.
  ghost function ResolveRole(db: Db, s: Session, name: string, tenant: Uuid): Option<RoleId> {
    if OwnRoles(db, s, name, tenant) != {} then Some(Pick(OwnRoles(db, s, name, tenant)))
    else if Templates(db, s, name) != {} then Some(Pick(Templates(db, s, name)))
    else None
  }

  // Key of the unique index on user_roles: a NULL project collapses to a sentinel.
  function UniqueKey(a: Assignment): (Uuid, RoleId, Uuid, Uuid) {
    (a.user, a.role, a.tenant, Coalesce(a.project, NIL_UUID))
  }

  ghost predicate Conflicts(db: Db, a: Assignment) {
    exists b | b in db.assignments :: UniqueKey(b) == UniqueKey(a)
  }

  predicate ReferencesExist(db: Db, a: Assignment) {
    && a.user in db.users && a.role in db.roles && a.tenant in db.tenants
    && (a.project.Some? ==> a.project.value in db.projects)
  }

  // ── Statements ────────────────────────────────────────────

  // INSERT ... ON CONFLICT DO NOTHING of one row into user_roles.
  ghost function InsertAssignment(db: Db, s: Session, a: Assignment): Tx {
    if !Permits(s, UserRoles, Some(a.tenant)) then Rollback(PolicyViolation)
    else if Conflicts(db, a) then Commit(db)
    else if !ReferencesExist(db, a) then Rollback(ForeignKeyViolation)
    else Commit(db.(assignments := db.assignments + {a}))
  }

  ghost function AssignRole(db: Db, s: Session, user: Uuid, name: string, tenant: Uuid, project: Option<Uuid>): Tx {
    match ResolveRole(db, s, name, tenant)
    case None => Commit(db)
    case Some(r) => InsertAssignment(db, s, Assignment(user, r, tenant, project))
  }

  // The role is looked up by name alone: only row security narrows it, and a
  // scalar subquery with two rows is an error.
  ghost function RevokeRole(db: Db, s: Session, user: Uuid, name: string, tenant: Uuid, project: Option<Uuid>): Tx {
    var found := VisibleRoles(db, s, name);
    if |found| > 1 then Rollback(CardinalityViolation)
    else Commit(db.(assignments := set a | a in db.assignments && !(
      && Permits(s, UserRoles, Some(a.tenant))
      && a.user == user && a.role in found && a.tenant == tenant && a.project == project)))
  }

  ghost function CreateRole(db: Db, s: Session, id: RoleId, name: string, description: string, tenant: Uuid): Tx {
    if !Permits(s, Roles, Some(tenant)) then Rollback(PolicyViolation)
    else if id in db.roles then Rollback(UniqueViolation)
    else if exists r | r in db.roles :: db.roles[r].tenant == Some(tenant) && db.roles[r].name == name then
      Rollback(UniqueViolation)
    else if tenant !in db.tenants then Rollback(ForeignKeyViolation)
    else Commit(db.(roles := db.roles[id := RoleRow(name, description, Some(tenant))]))
  }

  ghost function UpdateRole(db: Db, s: Session, name: string, description: string, tenant: Uuid): Tx {
    var hit := OwnRoles(db, s, name, tenant);
    Commit(db.(roles := map r | r in db.roles ::
      if r in hit then db.roles[r].(description := description) else db.roles[r]))
  }

  function AssignmentsWithout(assignments: set<Assignment>, gone: set<RoleId>): set<Assignment> {
    set a | a in assignments && a.role !in gone
  }

  function GrantsWithout(grants: set<(RoleId, PermId)>, gone: set<RoleId>): set<(RoleId, PermId)> {
    set rp | rp in grants && rp.0 !in gone
  }

  // Deleting a role cascades to its assignments and its permissions; foreign-key
  // actions are not subject to row security.
  ghost function DeleteRole(db: Db, s: Session, name: string, tenant: Uuid): Tx {
    var gone := OwnRoles(db, s, name, tenant);
    Commit(db.(
      roles := db.roles - gone,
      assignments := AssignmentsWithout(db.assignments, gone),
      rolePermissions := GrantsWithout(db.rolePermissions, gone)))
  }

  ghost function GrantPermission(db: Db, s: Session, role: string, permission: string, tenant: Uuid): Tx {
    Commit(db.(rolePermissions := db.rolePermissions +
      set r, p | r in OwnRoles(db, s, role, tenant) && p in db.permissions && db.permissions[p] == permission :: (r, p)))
  }

  ghost function RevokePermission(db: Db, s: Session, role: string, permission: string, tenant: Uuid): Tx {
    var roles := OwnRoles(db, s, role, tenant);
    var permissions := set p | p in db.permissions && db.permissions[p] == permission;
    if |roles| > 1 || |permissions| > 1 then Rollback(CardinalityViolation)
    else Commit(db.(rolePermissions := set rp | rp in db.rolePermissions && !(rp.0 in roles && rp.1 in permissions)))
  }

  ghost function CreateProject(db: Db, s: Session, id: RandomUuid, slug: string, name: string, tenant: Uuid): Tx {
    if !Permits(s, Projects, Some(tenant)) then Rollback(PolicyViolation)
    else if id in db.projects then Rollback(UniqueViolation)
    else if exists p | p in db.projects :: db.projects[p].tenant == tenant && db.projects[p].slug == slug then
      Rollback(UniqueViolation)
    else if tenant !in db.tenants then Rollback(ForeignKeyViolation)
    else Commit(db.(projects := db.projects[id := ProjectRow(tenant, slug, name)]))
  }

  // memberships is a relaxed table, so the session does not matter.
  function AddMember(db: Db, s: Session, user: Uuid, tenant: Uuid): Tx {
    if !Permits(s, Memberships, Some(tenant)) then Rollback(PolicyViolation)
    else if (user, tenant) in db.memberships then Commit(db)
    else if user !in db.users || tenant !in db.tenants then Rollback(ForeignKeyViolation)
    else Commit(db.(memberships := db.memberships[(user, tenant) := true]))
  }

  function RemoveMember(db: Db, s: Session, user: Uuid, tenant: Uuid): Tx {
    if Permits(s, Memberships, Some(tenant)) then Commit(db.(memberships := db.memberships - {(user, tenant)}))
    else Commit(db)
  }

  // One transaction: the tenant, its first member, and the admin template
  // assigned to that member within the tenant.
  ghost function CreateTenantWithAdmin(db: Db, id: RandomUuid, slug: string, name: string, creator: Uuid): Tx {
    if id in db.tenants || (exists t | t in db.tenants :: db.tenants[t].slug == slug) then Rollback(UniqueViolation)
    else if creator !in db.users then Rollback(ForeignKeyViolation)
    else
      var db1 := db.(tenants := db.tenants[id := TenantRow(slug, name, true)]);
      var db2 := After(db1, AddMember(db1, Bypass, creator, id));
      Commit(db2.(assignments := db2.assignments + FirstAdminRows(db2, creator, id)))
  }

  ghost function FirstAdminRows(db: Db, creator: Uuid, tenant: Uuid): set<Assignment> {
    set r | r in Templates(db, Bypass, "admin") && !Conflicts(db, Assignment(creator, r, tenant, None))
      :: Assignment(creator, r, tenant, None)
  }

  // One transaction: the identity and every role of the given name the session
  // sees, assigned in the default tenant (the column default).
  ghost function CreateUserWithRole(db: Db, s: Session, id: RandomUuid, email: string, role: string): Tx {
    if id in db.users || (exists u | u in db.users :: db.users[u] == email) then Rollback(UniqueViolation)
    else if !Permits(s, UserRoles, Some(DEFAULT_TENANT)) && VisibleRoles(db, s, role) != {} then Rollback(PolicyViolation)
    else if DEFAULT_TENANT !in db.tenants && VisibleRoles(db, s, role) != {} then Rollback(ForeignKeyViolation)
    else Commit(db.(
      users := db.users[id := email],
      assignments := db.assignments +
        set r | r in VisibleRoles(db, s, role) && !Conflicts(db, Assignment(id, r, DEFAULT_TENANT, None))
          :: Assignment(id, r, DEFAULT_TENANT, None)))
  }

  // Hard delete: foreign keys cascade to assignments and memberships.
  function DeleteUser(db: Db, user: Uuid): Tx {
    Commit(db.(
      users := db.users - {user},
      assignments := (set a | a in db.assignments && a.user != user),
      memberships := (map m | m in db.memberships && m.0 != user :: db.memberships[m])))
  }

  // ── Queries ───────────────────────────────────────────────

  // ur.project_id IS NULL OR ur.project_id = $3
  predicate InScope(a: Assignment, project: Option<Uuid>) {
    Holds(Or(IsNull(a.project), Equals(a.project, project)))
  }

  function ScopedAssignments(db: Db, s: Session, user: Uuid, tenant: Uuid, project: Option<Uuid>): set<Assignment> {
    set a | a in db.assignments && Permits(s, UserRoles, Some(a.tenant))
      && a.user == user && a.tenant == tenant && InScope(a, project)
  }

  // The joined rows; the query returns their names in name order.
  function RolesScoped(db: Db, s: Session, user: Uuid, tenant: Uuid, project: Option<Uuid>): set<(Assignment, string)> {
    set a | a in ScopedAssignments(db, s, user, tenant, project) && a.role in db.roles
      && Permits(s, Roles, db.roles[a.role].tenant) :: (a, db.roles[a.role].name)
  }

  function PermissionsScoped(db: Db, s: Session, user: Uuid, tenant: Uuid, project: Option<Uuid>): set<string> {
    set a, p | a in ScopedAssignments(db, s, user, tenant, project)
      && p in db.permissions && (a.role, p) in db.rolePermissions :: db.permissions[p]
  }

  function ProjectsOfTenant(db: Db, s: Session, tenant: Uuid): map<Uuid, ProjectRow> {
    map p | p in db.projects && Permits(s, Projects, Some(db.projects[p].tenant)) && db.projects[p].tenant == tenant
      :: db.projects[p]
  }

  function MembersOfTenant(db: Db, s: Session, tenant: Uuid): map<Uuid, bool> {
    map u | u in db.users && (u, tenant) in db.memberships && Permits(s, Memberships, Some(tenant))
      :: db.memberships[(u, tenant)]
  }

  predicate IsActiveMember(db: Db, user: Uuid, tenant: Uuid) {
    && (user, tenant) in db.memberships && db.memberships[(user, tenant)]
    && tenant in db.tenants && db.tenants[tenant].active
  }

  // The guards below read on the plain connection, without a tenant setting.
  predicate RoleExists(db: Db, name: string) {
    VisibleRoles(db, Bypass, name) != {}
  }

  predicate RoleInTenant(db: Db, name: string, tenant: Uuid) {
    OwnRoles(db, Bypass, name, tenant) + Templates(db, Bypass, name) != {}
  }

  predicate TenantRoleExists(db: Db, name: string, tenant: Uuid) {
    OwnRoles(db, Bypass, name, tenant) != {}
  }

  predicate ProjectInTenant(db: Db, project: Uuid, tenant: Uuid) {
    project in db.projects && db.projects[project].tenant == tenant
  }
}
