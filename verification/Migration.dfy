// The multi-tenant migration as the sequence of statements it is: new tables,
// nullable columns, backfill, tightened constraints. Proved for every database
// that satisfied the single-tenant schema: no constraint can fail, the result is
// consistent, and nobody's permissions change.
module Migration {
  import opened Sql
  import opened Rbac
  import opened RbacInvariant
  import opened RbacRls

  // ── Before ────────────────────────────────────────────────

  datatype OldRole = OldRole(name: string, description: string)

  datatype OldDb = OldDb(
    users: map<Uuid, string>,
    roles: map<RoleId, OldRole>,
    permissions: map<PermId, string>,
    rolePermissions: set<(RoleId, PermId)>,
    userRoles: set<(Uuid, RoleId)>,
    clients: set<string>,
    apiKeys: set<string>,
    refreshTokens: set<string>)

  ghost predicate OldOk(db: OldDb) {
    && (forall u, v | u in db.users && v in db.users && db.users[u] == db.users[v] :: u == v)
    && (forall r, q | r in db.roles && q in db.roles && db.roles[r].name == db.roles[q].name :: r == q)
    && (forall p, q | p in db.permissions && q in db.permissions && db.permissions[p] == db.permissions[q] :: p == q)
    && (forall rp | rp in db.rolePermissions :: rp.0 in db.roles && rp.1 in db.permissions)
    && (forall ur | ur in db.userRoles :: ur.0 in db.users && ur.1 in db.roles)
  }

  // The unscoped queries.
  ghost function OldRoles(db: OldDb, user: Uuid): set<string> {
    set ur | ur in db.userRoles && ur.0 == user && ur.1 in db.roles :: db.roles[ur.1].name
  }

  ghost function OldPermissions(db: OldDb, user: Uuid): set<string> {
    set ur, p | ur in db.userRoles && ur.0 == user && p in db.permissions && (ur.1, p) in db.rolePermissions
      :: db.permissions[p]
  }

  // ── After ─────────────────────────────────────────────────

  function NewPermissions(): seq<string> {
    ["tenant:read", "tenant:write", "project:read", "project:write", "member:read", "member:write"]
  }

  function DefaultTenant(): TenantRow {
    TenantRow("default", "Default Organization", true)
  }

  function DefaultProject(): ProjectRow {
    ProjectRow(DEFAULT_TENANT, "default", "Default Project")
  }

  ghost function MigratedRole(role: OldRole): RoleRow {
    RoleRow(role.name, role.description, if IsBuiltinRole(role.name) then None else Some(DEFAULT_TENANT))
  }

  ghost function Migrated(old_: OldDb, permissions: map<PermId, string>): Db {
    Db(
      old_.users,
      map[DEFAULT_TENANT := DefaultTenant()],
      map[DEFAULT_PROJECT := DefaultProject()],
      (map r | r in old_.roles :: MigratedRole(old_.roles[r])),
      permissions,
      old_.rolePermissions,
      (set ur | ur in old_.userRoles :: Assignment(ur.0, ur.1, DEFAULT_TENANT, None)),
      (map u | u in old_.users :: (u, DEFAULT_TENANT) := true))
  }

  // The old permissions stay as they were, and names stay unique.
  ghost predicate Kept(before: map<PermId, string>, after: map<PermId, string>) {
    && (forall p | p in before :: p in after && after[p] == before[p])
    && (forall p, q | p in after && q in after && after[p] == after[q] :: p == q)
  }

  ghost predicate Named(permissions: map<PermId, string>, name: string) {
    exists p :: p in permissions && permissions[p] == name
  }

  lemma NamesStay(before: map<PermId, string>, after: map<PermId, string>, names: seq<string>)
    requires forall p | p in before :: p in after && after[p] == before[p]
    ensures forall name | name in names && Named(before, name) :: Named(after, name)
  {
  }

  // The rows of user_roles as the migration rewrites them.
  function WithNewColumns(rows: set<(Uuid, RoleId)>): set<LooseAssignment> {
    set ur | ur in rows :: LooseAssignment(ur.0, ur.1, None, None)
  }

  function UnscopedRoles(roles: map<RoleId, OldRole>): map<RoleId, RoleRow> {
    map r | r in roles :: RoleRow(roles[r].name, roles[r].description, None)
  }

  function FillRoles(roles: map<RoleId, RoleRow>): map<RoleId, RoleRow> {
    map r | r in roles ::
      if !IsBuiltinRole(roles[r].name) && roles[r].tenant.None? then roles[r].(tenant := Some(DEFAULT_TENANT)) else roles[r]
  }

  function EnrollAll(users: map<Uuid, string>, memberships: map<(Uuid, Uuid), bool>): map<(Uuid, Uuid), bool> {
    memberships + map u | u in users && (u, DEFAULT_TENANT) !in memberships :: (u, DEFAULT_TENANT) := true
  }

  function NullTenants(keys: set<string>): map<string, Option<Uuid>> {
    map k | k in keys :: None
  }

  function FillTenant(rows: map<string, Option<Uuid>>): map<string, Option<Uuid>> {
    map k | k in rows :: if rows[k].None? then Some(DEFAULT_TENANT) else rows[k]
  }

  predicate NoNulls(rows: map<string, Option<Uuid>>) {
    forall k | k in rows :: rows[k].Some?
  }

  predicate NamesUnique(roles: map<RoleId, RoleRow>) {
    forall r, q | r in roles && q in roles && roles[r].name == roles[q].name && roles[r].tenant == roles[q].tenant :: r == q
  }

  predicate RowsUnique(rows: set<LooseAssignment>) {
    forall a, b | a in rows && b in rows && LooseKey(a) == LooseKey(b) :: a == b
  }

  ghost predicate AllDefault(rows: map<string, Option<Uuid>>, keys: set<string>) {
    rows.Keys == keys && forall k | k in rows :: rows[k] == Some(DEFAULT_TENANT)
  }

  lemma RewrittenRoles(db: OldDb)
    requires OldOk(db)
    ensures FillRoles(UnscopedRoles(db.roles)) == map r | r in db.roles :: MigratedRole(db.roles[r])
  {
  }

  lemma RewrittenNames(db: OldDb)
    requires OldOk(db)
    ensures NamesUnique(FillRoles(UnscopedRoles(db.roles)))
  {
  }

  lemma RewrittenMembers(users: map<Uuid, string>)
    ensures EnrollAll(users, map[]) == map u | u in users :: (u, DEFAULT_TENANT) := true
  {
  }

  lemma RewrittenTenants(keys: set<string>)
    ensures NoNulls(FillTenant(NullTenants(keys))) && AllDefault(FillTenant(NullTenants(keys)), keys)
  {
  }

  function FillRows(rows: set<LooseAssignment>): set<LooseAssignment> {
    set a | a in rows :: a.(tenant := Some(Coalesce(a.tenant, DEFAULT_TENANT)))
  }

  ghost function TightRows(rows: set<LooseAssignment>): set<Assignment>
    requires forall a | a in rows :: a.tenant.Some?
  {
    set a | a in rows :: Assignment(a.user, a.role, a.tenant.value, a.project)
  }

  lemma RewrittenRows(rows: set<(Uuid, RoleId)>)
    ensures var filled := FillRows(WithNewColumns(rows));
      && (forall a | a in filled :: a.tenant == Some(DEFAULT_TENANT) && a.project == None && (a.user, a.role) in rows)
      && RowsUnique(filled)
      && TightRows(filled) == set ur | ur in rows :: Assignment(ur.0, ur.1, DEFAULT_TENANT, None)
  {
    var filled := FillRows(WithNewColumns(rows));
    forall ur | ur in rows
      ensures Assignment(ur.0, ur.1, DEFAULT_TENANT, None) in TightRows(filled)
    {
      assert LooseAssignment(ur.0, ur.1, None, None) in WithNewColumns(rows);
      assert LooseAssignment(ur.0, ur.1, Some(DEFAULT_TENANT), None) in filled;
    }
  }

  // What the backfill means, from whatever state the columns are in: no row is lost
  // or added but the missing memberships, no owner already set changes, rows
  // without one go to the default tenant, except that the templates stay unowned.
  lemma BackfillMeans(
    roles: map<RoleId, RoleRow>, rows: set<LooseAssignment>, users: map<Uuid, string>,
    memberships: map<(Uuid, Uuid), bool>, keyed: map<string, Option<Uuid>>)
    ensures FillRoles(roles).Keys == roles.Keys
    ensures forall r | r in roles ::
              && FillRoles(roles)[r].name == roles[r].name && FillRoles(roles)[r].description == roles[r].description
              && (roles[r].tenant.Some? ==> FillRoles(roles)[r].tenant == roles[r].tenant)
              && (roles[r].tenant.None? ==>
                    FillRoles(roles)[r].tenant == if IsBuiltinRole(roles[r].name) then None else Some(DEFAULT_TENANT))
    ensures forall a :: a in FillRows(rows) <==>
              && a.tenant.Some?
              && (a in rows || (a.tenant == Some(DEFAULT_TENANT) && a.(tenant := None) in rows))
    ensures forall m :: m in EnrollAll(users, memberships) <==>
              m in memberships || (m.0 in users && m.1 == DEFAULT_TENANT)
    ensures forall m | m in EnrollAll(users, memberships) ::
              EnrollAll(users, memberships)[m] == if m in memberships then memberships[m] else true
    ensures NoNulls(FillTenant(keyed)) && FillTenant(keyed).Keys == keyed.Keys
    ensures forall k | k in keyed && keyed[k].Some? :: FillTenant(keyed)[k] == keyed[k]
    ensures forall k | k in keyed && keyed[k].None? :: FillTenant(keyed)[k] == Some(DEFAULT_TENANT)
  {
  }

  // A second backfill finds nothing to do.
  lemma BackfillIsIdempotent(
    roles: map<RoleId, RoleRow>, rows: set<LooseAssignment>, users: map<Uuid, string>,
    memberships: map<(Uuid, Uuid), bool>, keyed: map<string, Option<Uuid>>)
    ensures FillRoles(FillRoles(roles)) == FillRoles(roles)
    ensures FillRows(FillRows(rows)) == FillRows(rows)
    ensures EnrollAll(users, EnrollAll(users, memberships)) == EnrollAll(users, memberships)
    ensures FillTenant(FillTenant(keyed)) == FillTenant(keyed)
  {
  }

  // ── The statements ────────────────────────────────────────

  datatype LooseAssignment = LooseAssignment(user: Uuid, role: RoleId, tenant: Option<Uuid>, project: Option<Uuid>)

  class Schema {
    var users: map<Uuid, string>
    var tenants: map<Uuid, TenantRow>
    var projects: map<Uuid, ProjectRow>
    var memberships: map<(Uuid, Uuid), bool>
    var roles: map<RoleId, RoleRow>
    var permissions: map<PermId, string>
    var rolePermissions: set<(RoleId, PermId)>
    var userRoles: set<LooseAssignment>
    var clients: map<string, Option<Uuid>>
    var apiKeys: map<string, Option<Uuid>>
    var refreshTokens: map<string, Option<Uuid>>

    // The old tables with the new columns added, all NULL, and the new tables empty.
    constructor AddColumns(db: OldDb)
      ensures fresh(this) && users == db.users && tenants == map[] && projects == map[] && memberships == map[]
      ensures roles == UnscopedRoles(db.roles) && userRoles == WithNewColumns(db.userRoles)
      ensures permissions == db.permissions && rolePermissions == db.rolePermissions
      ensures clients == NullTenants(db.clients) && apiKeys == NullTenants(db.apiKeys)
      ensures refreshTokens == NullTenants(db.refreshTokens)
    {
      users, tenants, projects, memberships := db.users, map[], map[], map[];
      roles, userRoles := UnscopedRoles(db.roles), WithNewColumns(db.userRoles);
      permissions, rolePermissions := db.permissions, db.rolePermissions;
      clients, apiKeys, refreshTokens := NullTenants(db.clients), NullTenants(db.apiKeys), NullTenants(db.refreshTokens);
    }

    method SeedDefaults()
      modifies this`tenants, this`projects
      ensures tenants == old(tenants)[DEFAULT_TENANT :=
        if DEFAULT_TENANT in old(tenants) then old(tenants)[DEFAULT_TENANT] else DefaultTenant()]
      ensures projects == old(projects)[DEFAULT_PROJECT :=
        if DEFAULT_PROJECT in old(projects) then old(projects)[DEFAULT_PROJECT]
        else DefaultProject()]
    {
      if DEFAULT_TENANT !in tenants {
        tenants := tenants[DEFAULT_TENANT := DefaultTenant()];
      }
      if DEFAULT_PROJECT !in projects {
        projects := projects[DEFAULT_PROJECT := DefaultProject()];
      }
    }

    // INSERT ... ON CONFLICT (name) DO NOTHING, ids taken from the sequence.
    method SeedPermissions(names: seq<string>, sequence: PermId)
      requires forall p | p in permissions :: p < sequence
      requires Kept(permissions, permissions)
      modifies this`permissions
      ensures Kept(old(permissions), permissions)
      ensures forall p | p in permissions && p !in old(permissions) :: permissions[p] in names
      ensures forall name | name in names :: Named(permissions, name)
    {
      var next := sequence;
      for i := 0 to |names|
        invariant forall p | p in permissions :: p < next
        invariant Kept(old(permissions), permissions)
        invariant forall p | p in permissions && p !in old(permissions) :: permissions[p] in names
        invariant forall j | 0 <= j < i :: Named(permissions, names[j])
      {
        ghost var before := permissions;
        if !exists p | p in permissions :: permissions[p] == names[i] {
          permissions := permissions[next := names[i]];
          assert permissions[next] == names[i];
          next := next + 1;
        }
        NamesStay(before, permissions, names[..i]);
        assert forall j | 0 <= j < i :: names[j] in names[..i];
      }
    }

    method Backfill()
      modifies this`memberships, this`roles, this`userRoles, this`clients, this`apiKeys, this`refreshTokens
      ensures memberships == EnrollAll(users, old(memberships))
      ensures roles == FillRoles(old(roles))
      ensures userRoles == FillRows(old(userRoles))
      ensures clients == FillTenant(old(clients))
      ensures apiKeys == FillTenant(old(apiKeys))
      ensures refreshTokens == FillTenant(old(refreshTokens))
    {
      memberships := EnrollAll(users, memberships);
      roles := FillRoles(roles);
      userRoles := FillRows(userRoles);
      clients := FillTenant(clients);
      apiKeys := FillTenant(apiKeys);
      refreshTokens := FillTenant(refreshTokens);
    }

    // SET NOT NULL, the unique indexes on roles and the one on user_roles; false
    // when a row violates one of them.
    method Tighten() returns (ok: bool)
      ensures ok <==>
        && (forall a | a in userRoles :: a.tenant.Some?)
        && NoNulls(clients) && NoNulls(apiKeys) && NoNulls(refreshTokens)
        && NamesUnique(roles) && RowsUnique(userRoles)
    {
      ok := && (forall a | a in userRoles :: a.tenant.Some?)
        && NoNulls(clients) && NoNulls(apiKeys) && NoNulls(refreshTokens)
        && NamesUnique(roles) && RowsUnique(userRoles);
    }

    // The tables as the tightened schema sees them.
    ghost function State(): Db
      requires forall a | a in userRoles :: a.tenant.Some?
      reads this
    {
      Db(users, tenants, projects, roles, permissions, rolePermissions,
        TightRows(userRoles), memberships)
    }
  }

  function LooseKey(a: LooseAssignment): (Uuid, RoleId, Option<Uuid>, Uuid) {
    (a.user, a.role, a.tenant, Coalesce(a.project, NIL_UUID))
  }

  // The statements up to the backfill, in order.
  method Rewrite(db: OldDb, sequence: PermId) returns (schema: Schema)
    requires OldOk(db) && forall p | p in db.permissions :: p < sequence
    ensures fresh(schema)
    ensures Kept(db.permissions, schema.permissions)
    ensures forall p | p in schema.permissions && p !in db.permissions :: schema.permissions[p] in NewPermissions()
    ensures forall name | name in NewPermissions() :: Named(schema.permissions, name)
    ensures schema.users == db.users && schema.rolePermissions == db.rolePermissions
    ensures schema.tenants == map[DEFAULT_TENANT := DefaultTenant()]
    ensures schema.projects == map[DEFAULT_PROJECT := DefaultProject()]
    ensures schema.memberships == EnrollAll(db.users, map[])
    ensures schema.roles == FillRoles(UnscopedRoles(db.roles))
    ensures schema.userRoles == FillRows(WithNewColumns(db.userRoles))
    ensures schema.clients == FillTenant(NullTenants(db.clients))
    ensures schema.apiKeys == FillTenant(NullTenants(db.apiKeys))
    ensures schema.refreshTokens == FillTenant(NullTenants(db.refreshTokens))
  {
    hide *;
    schema := new Schema.AddColumns(db);
    schema.SeedDefaults();
    OldNamesAreKept(db);
    schema.SeedPermissions(NewPermissions(), sequence);
    schema.Backfill();
  }

  // The whole migration. Tightening the constraints cannot fail, and what is left
  // is the migrated database.
  method Migrate(db: OldDb, sequence: PermId) returns (schema: Schema, ok: bool)
    requires OldOk(db) && forall p | p in db.permissions :: p < sequence
    ensures ok && fresh(schema)
    ensures forall a | a in schema.userRoles :: a.tenant.Some?
    ensures Kept(db.permissions, schema.permissions)
    ensures forall p | p in schema.permissions && p !in db.permissions :: schema.permissions[p] in NewPermissions()
    ensures forall name | name in NewPermissions() :: Named(schema.permissions, name)
    ensures schema.State() == Migrated(db, schema.permissions)
    ensures AllDefault(schema.clients, db.clients)
    ensures AllDefault(schema.apiKeys, db.apiKeys)
    ensures AllDefault(schema.refreshTokens, db.refreshTokens)
  {
    hide *;
    schema := Rewrite(db, sequence);
    RewrittenRows(db.userRoles);
    RewrittenRoles(db);
    RewrittenNames(db);
    RewrittenMembers(db.users);
    RewrittenTenants(db.clients);
    RewrittenTenants(db.apiKeys);
    RewrittenTenants(db.refreshTokens);
    ok := schema.Tighten();
    StateIsMigrated(db, schema);
  }

  lemma StateIsMigrated(db: OldDb, schema: Schema)
    requires schema.users == db.users && schema.rolePermissions == db.rolePermissions
    requires schema.tenants == map[DEFAULT_TENANT := DefaultTenant()]
    requires schema.projects == map[DEFAULT_PROJECT := DefaultProject()]
    requires schema.memberships == map u | u in db.users :: (u, DEFAULT_TENANT) := true
    requires schema.roles == map r | r in db.roles :: MigratedRole(db.roles[r])
    requires forall a | a in schema.userRoles :: a.tenant.Some?
    requires TightRows(schema.userRoles) == set ur | ur in db.userRoles :: Assignment(ur.0, ur.1, DEFAULT_TENANT, None)
    ensures schema.State() == Migrated(db, schema.permissions)
  {
  }

  lemma OldNamesAreKept(db: OldDb)
    requires OldOk(db)
    ensures Kept(db.permissions, db.permissions)
  {
  }

  // ── Meaning ───────────────────────────────────────────────

  lemma MigrationEstablishesInvariant(db: OldDb, permissions: map<PermId, string>)
    requires OldOk(db) && Kept(db.permissions, permissions)
    ensures Inv(Migrated(db, permissions))
    ensures forall u | u in db.users :: IsActiveMember(Migrated(db, permissions), u, DEFAULT_TENANT)
  {
    MigratedRolesOk(db, permissions);
    MigratedAssignmentsOk(db, permissions);
    MigratedRestOk(db, permissions);
    hide RolesOk, ProjectsOk, PermissionsOk, AssignmentsOk, UsersOk, OldOk;
  }

  lemma MigratedRestOk(db: OldDb, permissions: map<PermId, string>)
    requires OldOk(db) && Kept(db.permissions, permissions)
    ensures var m := Migrated(db, permissions); ProjectsOk(m) && PermissionsOk(m) && UsersOk(m)
  {
  }

  lemma MigratedRolesOk(db: OldDb, permissions: map<PermId, string>)
    requires OldOk(db)
    ensures RolesOk(Migrated(db, permissions))
  {
  }

  lemma MigratedAssignmentsOk(db: OldDb, permissions: map<PermId, string>)
    requires OldOk(db)
    ensures AssignmentsOk(Migrated(db, permissions))
  {
  }

  // One tenant and one project, both named `default` and with the ids the later code
  // relies on.
  lemma DefaultRows(db: OldDb, permissions: map<PermId, string>)
    ensures var m := Migrated(db, permissions);
            && m.tenants == map[1 := TenantRow("default", "Default Organization", true)]
            && m.projects == map[2 := ProjectRow(1, "default", "Default Project")]
  {
  }

  // The new indexes keep names apart within a tenant and among the templates, and
  // let different tenants use the same one.
  lemma NamesMayRepeatAcrossTenants(r: RoleId, q: RoleId, name: string, t: Option<Uuid>, t': Option<Uuid>)
    requires r != q
    ensures NamesUnique(map[r := RoleRow(name, "", t), q := RoleRow(name, "", t')]) <==> t != t'
  {
    var roles := map[r := RoleRow(name, "", t), q := RoleRow(name, "", t')];
    assert r in roles && q in roles;
  }

  // In the default tenant, whatever the project, everybody has the permissions
  // and roles of before; in any other tenant nobody has any.
  lemma MigrationPreservesAccess(
    db: OldDb, permissions: map<PermId, string>, user: Uuid, tenant: Uuid, project: Option<Uuid>, s: Session)
    requires OldOk(db) && Kept(db.permissions, permissions)
    requires s == Bypass || s == Enforced(Some(DEFAULT_TENANT))
    ensures var m := Migrated(db, permissions);
      && PermissionsScoped(m, s, user, tenant, project) ==
        (if tenant == DEFAULT_TENANT then OldPermissions(db, user) else {})
      && (set row | row in RolesScoped(m, s, user, tenant, project) :: row.1) ==
        (if tenant == DEFAULT_TENANT then OldRoles(db, user) else {})
      && (IsActiveMember(m, user, tenant) <==> user in db.users && tenant == DEFAULT_TENANT)
  {
    var m := Migrated(db, permissions);
    OldUsersAreMembers(db, permissions, user, tenant);
    if tenant == DEFAULT_TENANT {
      OldPermissionsSurvive(db, permissions, user, project, s);
      OldRolesSurvive(db, permissions, user, project, s);
    } else {
      assert ScopedAssignments(m, s, user, tenant, project) == {};
    }
  }

  lemma OldUsersAreMembers(db: OldDb, permissions: map<PermId, string>, user: Uuid, tenant: Uuid)
    ensures IsActiveMember(Migrated(db, permissions), user, tenant) <==> user in db.users && tenant == DEFAULT_TENANT
  {
  }

  lemma OldPermissionsSurvive(db: OldDb, permissions: map<PermId, string>, user: Uuid, project: Option<Uuid>, s: Session)
    requires OldOk(db) && Kept(db.permissions, permissions)
    requires s == Bypass || s == Enforced(Some(DEFAULT_TENANT))
    ensures PermissionsScoped(Migrated(db, permissions), s, user, DEFAULT_TENANT, project) == OldPermissions(db, user)
  {
    NoPermissionGained(db, permissions, user, project, s);
    NoPermissionLost(db, permissions, user, project, s);
  }

  lemma NoPermissionGained(db: OldDb, permissions: map<PermId, string>, user: Uuid, project: Option<Uuid>, s: Session)
    requires OldOk(db) && Kept(db.permissions, permissions)
    ensures PermissionsScoped(Migrated(db, permissions), s, user, DEFAULT_TENANT, project) <= OldPermissions(db, user)
  {
  }

  lemma NoPermissionLost(db: OldDb, permissions: map<PermId, string>, user: Uuid, project: Option<Uuid>, s: Session)
    requires Kept(db.permissions, permissions)
    requires s == Bypass || s == Enforced(Some(DEFAULT_TENANT))
    ensures OldPermissions(db, user) <= PermissionsScoped(Migrated(db, permissions), s, user, DEFAULT_TENANT, project)
  {
    var m := Migrated(db, permissions);
    forall name | name in OldPermissions(db, user)
      ensures name in PermissionsScoped(m, s, user, DEFAULT_TENANT, project)
    {
      var ur, p :| ur in db.userRoles && ur.0 == user && p in db.permissions
        && (ur.1, p) in db.rolePermissions && db.permissions[p] == name;
      var a := Assignment(ur.0, ur.1, DEFAULT_TENANT, None);
      assert a in ScopedAssignments(m, s, user, DEFAULT_TENANT, project) && (a.role, p) in m.rolePermissions;
    }
  }

  lemma OldRolesSurvive(db: OldDb, permissions: map<PermId, string>, user: Uuid, project: Option<Uuid>, s: Session)
    requires OldOk(db)
    requires s == Bypass || s == Enforced(Some(DEFAULT_TENANT))
    ensures (set row | row in RolesScoped(Migrated(db, permissions), s, user, DEFAULT_TENANT, project) :: row.1)
      == OldRoles(db, user)
  {
    var m := Migrated(db, permissions);
    var rows := RolesScoped(m, s, user, DEFAULT_TENANT, project);
    forall name | name in OldRoles(db, user)
      ensures exists row :: row in rows && row.1 == name
    {
      var ur :| ur in db.userRoles && ur.0 == user && ur.1 in db.roles && db.roles[ur.1].name == name;
      var row := (Assignment(ur.0, ur.1, DEFAULT_TENANT, None), name);
      assert row.0 in ScopedAssignments(m, s, user, DEFAULT_TENANT, project);
      assert row in rows;
    }
    forall row | row in rows
      ensures row.1 in OldRoles(db, user)
    {
      assert (row.0.user, row.0.role) in db.userRoles && (row.0.user, row.0.role).1 == row.0.role;
    }
  }

  // ── The later viewer template ─────────────────────────────

  predicate IsReadPermission(name: string) {
    |name| >= 5 && name[|name| - 5..] == ":read"
  }

  // Inserts the template unless there is one.
  ghost function InsertViewer(db: Db, id: RoleId): Db {
    if Templates(db, Bypass, "viewer") != {} then db
    else db.(roles := db.roles[id := RoleRow("viewer", "Read-only access (public demo)", None)])
  }

  // Grants it every read permission.
  ghost function GrantReads(db: Db): Db {
    db.(rolePermissions := db.rolePermissions +
      set r, p | r in Templates(db, Bypass, "viewer") && p in db.permissions && IsReadPermission(db.permissions[p]) :: (r, p))
  }

  ghost function AddViewerTemplate(db: Db, id: RoleId): Db {
    GrantReads(InsertViewer(db, id))
  }

  lemma InsertViewerKeepsInvariant(db: Db, id: RoleId)
    requires Inv(db) && id !in db.roles
    ensures Inv(InsertViewer(db, id))
  {
    hide Inv;
    if Templates(db, Bypass, "viewer") == {} {
      forall r | r in db.roles
        ensures !(db.roles[r].name == "viewer" && db.roles[r].tenant == None)
      {
        assert r !in Templates(db, Bypass, "viewer");
      }
      NewRoleIsIndependent(db, id, RoleRow("viewer", "Read-only access (public demo)", None));
    }
  }

  lemma InsertViewerNames(db: Db, id: RoleId)
    requires id !in db.roles
    ensures Templates(db, Bypass, "viewer") == {} ==> Templates(InsertViewer(db, id), Bypass, "viewer") == {id}
    ensures OwnRoles(InsertViewer(db, id), Bypass, "viewer", DEFAULT_TENANT) == OwnRoles(db, Bypass, "viewer", DEFAULT_TENANT)
  {
  }

  lemma GrantReadsKeepsInvariant(db: Db)
    requires Inv(db)
    ensures Inv(GrantReads(db))
    ensures Templates(GrantReads(db), Bypass, "viewer") == Templates(db, Bypass, "viewer")
    ensures OwnRoles(GrantReads(db), Bypass, "viewer", DEFAULT_TENANT) == OwnRoles(db, Bypass, "viewer", DEFAULT_TENANT)
  {
    AssignmentsFrame(db, GrantReads(db));
  }

  // Adding the template leaves everybody's access alone.
  lemma ViewerTemplateKeepsAccess(db: Db, id: RoleId, user: Uuid, tenant: Uuid, project: Option<Uuid>)
    requires Inv(db) && id !in db.roles && Templates(db, Bypass, "viewer") == {}
    ensures PermissionsScoped(AddViewerTemplate(db, id), Bypass, user, tenant, project)
      == PermissionsScoped(db, Bypass, user, tenant, project)
  {
    var db' := AddViewerTemplate(db, id);
    InsertViewerNames(db, id);
    assert ScopedAssignments(db', Bypass, user, tenant, project) == ScopedAssignments(db, Bypass, user, tenant, project);
    forall a | a in ScopedAssignments(db, Bypass, user, tenant, project)
      ensures a.role != id
    {
      assert AssignmentOk(db, a);
    }
  }

  // The template has exactly the permissions whose names end in `:read`, besides
  // any it was given before, and no other role gains or loses one.
  lemma ViewerGetsTheReads(db: Db, id: RoleId, role: RoleId, p: PermId)
    requires Inv(db) && id !in db.roles
    ensures var db' := AddViewerTemplate(db, id);
      && ((role, p) in db'.rolePermissions <==>
            || (role, p) in db.rolePermissions
            || (role in db'.roles && db'.roles[role].name == "viewer" && db'.roles[role].tenant == None
                && p in db.permissions && exists kind: string :: db.permissions[p] == kind + ":read"))
      && db'.permissions == db.permissions && db'.assignments == db.assignments
      && (forall r | r in db.roles :: r in db'.roles && db'.roles[r] == db.roles[r])
      && (exists r | r in db'.roles :: db'.roles[r].name == "viewer" && db'.roles[r].tenant == None)
  {
    hide Inv;
    var inserted := InsertViewer(db, id);
    if Templates(db, Bypass, "viewer") == {} {
      InsertViewerNames(db, id);
      assert inserted.roles[id].name == "viewer" && inserted.roles[id].tenant == None;
    } else {
      var r :| r in Templates(db, Bypass, "viewer");
      assert inserted.roles[r].name == "viewer" && inserted.roles[r].tenant == None;
    }
    assert Templates(inserted, Bypass, "viewer") ==
      set r | r in inserted.roles && inserted.roles[r].name == "viewer" && inserted.roles[r].tenant == None;
    if p in db.permissions {
      ReadPermissionsEndInRead(db.permissions[p]);
    }
  }

  lemma ReadPermissionsEndInRead(name: string)
    ensures IsReadPermission(name) <==> exists kind: string :: name == kind + ":read"
  {
    if IsReadPermission(name) {
      assert name == name[..|name| - 5] + ":read";
    }
  }

  // Of the permissions the migration seeds, the template gets the three that read.
  lemma ViewerReadsTenantProjectMember(db: OldDb, permissions: map<PermId, string>, id: RoleId, p: PermId)
    requires OldOk(db) && Kept(db.permissions, permissions) && id !in db.roles
    requires p in permissions && permissions[p] in NewPermissions()
    ensures (id, p) in AddViewerTemplate(Migrated(db, permissions), id).rolePermissions <==>
              permissions[p] in {"tenant:read", "project:read", "member:read"}
  {
    var m := Migrated(db, permissions);
    MigrationEstablishesInvariant(db, permissions);
    assert Templates(m, Bypass, "viewer") == {};
    assert id !in m.roles && forall rp | rp in m.rolePermissions :: rp.0 in m.roles;
    hide Inv, AddViewerTemplate, Migrated, Templates;
    TemplateIsInserted(m, id);
    ViewerGetsTheReads(m, id, id, p);
    SeededReads(permissions[p]);
  }

  lemma TemplateIsInserted(db: Db, id: RoleId)
    requires id !in db.roles && Templates(db, Bypass, "viewer") == {}
    ensures var roles := AddViewerTemplate(db, id).roles;
            id in roles && roles[id].name == "viewer" && roles[id].tenant == None
  {
  }

  lemma SeededReads(name: string)
    requires name in NewPermissions()
    ensures (exists kind: string :: name == kind + ":read") <==> name in {"tenant:read", "project:read", "member:read"}
  {
    ReadPermissionsEndInRead(name);
  }

  // But a role called `viewer` that existed before the migration now shares its
  // name: revoking it by name in the default tenant fails, and exactly then.
  lemma ViewerTemplateEffect(old_: OldDb, permissions: map<PermId, string>, id: RoleId, user: Uuid, project: Option<Uuid>)
    requires OldOk(old_) && Kept(old_.permissions, permissions) && id !in old_.roles
    ensures var db := AddViewerTemplate(Migrated(old_, permissions), id);
      && Inv(db)
      && (RevokeRole(db, Enforced(Some(DEFAULT_TENANT)), user, "viewer", DEFAULT_TENANT, project).Rollback?
        <==> exists r | r in old_.roles :: old_.roles[r].name == "viewer")
  {
    hide Inv, RevokeRole, InsertViewer, GrantReads;
    var m := Migrated(old_, permissions);
    MigrationEstablishesInvariant(old_, permissions);
    assert Templates(m, Bypass, "viewer") == {};
    InsertViewerKeepsInvariant(m, id);
    InsertViewerNames(m, id);
    GrantReadsKeepsInvariant(InsertViewer(m, id));
    RevokeFailsExactlyOnSharedName(AddViewerTemplate(m, id), user, "viewer", DEFAULT_TENANT, project);
    if r :| r in old_.roles && old_.roles[r].name == "viewer" {
      assert r in OwnRoles(m, Bypass, "viewer", DEFAULT_TENANT);
    } else {
      assert OwnRoles(m, Bypass, "viewer", DEFAULT_TENANT) == {};
    }
  }
}
