// The administration handlers as program-counter machines over the shared store:
// a handler checks its guards in some steps and runs its statements in later
// ones, and the steps of any number of handlers, of any tenants, interleave.
module RbacSystem {
  import opened Sql
  import opened Rbac
  import opened RbacInvariant
  import opened RbacRls

  datatype Request =
    | CreateRoleRequest(id: RoleId, name: string, description: string)
    | UpdateRoleRequest(name: string, description: string)
    | DeleteRoleRequest(name: string)
    | GrantRequest(name: string, permission: string)
    | UngrantRequest(name: string, permission: string)
    | AssignRequest(users: seq<Uuid>, name: string, project: Option<Uuid>)   // single and bulk
    | UnassignRequest(user: Uuid, name: string, project: Option<Uuid>)
    | CreateProjectRequest(newId: RandomUuid, slug: string, title: string)
    | AddMemberRequest(email: string)
    | RemoveMemberRequest(user: Uuid)

  // Where a handler stands: before its first read, before the check that the
  // named project is the tenant's, or with statements left to run.
  datatype Handler =
    | Entered(tenant: Uuid, request: Request)
    | ProjectPending(tenant: Uuid, request: Request)
    | Running(tenant: Uuid, todo: seq<Statement>)

  datatype Sys = Sys(db: Db, handlers: map<nat, Handler>)

  datatype Event =
    | Arrive(id: nat, tenant: Uuid, request: Request)
    | Advance(id: nat)
    | Abort(id: nat)
    | Register(newUser: RandomUuid, email: string)
    | Enroll(user: Uuid)
    | NewTenant(tenantId: RandomUuid, slug: string, title: string, creator: Uuid)
    | HardDelete(user: Uuid)

  // ── Handlers ──────────────────────────────────────────────

  // The checks made on the request alone.
  predicate Admitted(request: Request) {
    match request
    case CreateRoleRequest(_, name, _) => name != "" && !IsBuiltinRole(name)
    case UpdateRoleRequest(name, _) => !IsBuiltinRole(name)
    case DeleteRoleRequest(name) => !IsBuiltinRole(name)
    case GrantRequest(name, _) => !IsBuiltinRole(name)
    case UngrantRequest(name, _) => !IsBuiltinRole(name)
    case CreateProjectRequest(_, slug, title) => slug != "" && title != ""
    case _ => true
  }

  // The first read of the database, if the handler makes one.
  predicate RoleGuard(db: Db, tenant: Uuid, request: Request) {
    match request
    case DeleteRoleRequest(name) => TenantRoleExists(db, name, tenant)
    case GrantRequest(name, _) => TenantRoleExists(db, name, tenant)
    case UngrantRequest(name, _) => TenantRoleExists(db, name, tenant)
    case AssignRequest(_, name, _) => RoleInTenant(db, name, tenant)
    case UnassignRequest(_, name, _) => RoleExists(db, name)
    case _ => true
  }

  function UsersByEmail(db: Db, email: string): set<Uuid> {
    set u | u in db.users && db.users[u] == email
  }

  ghost function Statements(db: Db, request: Request): seq<Statement> {
    match request
    case CreateRoleRequest(id, name, description) => [NewRole(id, name, description)]
    case UpdateRoleRequest(name, description) => [DescribeRole(name, description)]
    case DeleteRoleRequest(name) => [DropRole(name)]
    case GrantRequest(name, permission) => [Grant(name, permission)]
    case UngrantRequest(name, permission) => [Ungrant(name, permission)]
    case AssignRequest(users, name, project) => seq(|users|, i requires 0 <= i < |users| => Assign(users[i], name, project))
    case UnassignRequest(user, name, project) => [Unassign(user, name, project)]
    case CreateProjectRequest(id, slug, title) => [NewProject(id, slug, title)]
    case AddMemberRequest(email) =>
      if UsersByEmail(db, email) == {} then [] else [Join(Pick(UsersByEmail(db, email)))]
    case RemoveMemberRequest(user) => [Leave(user)]
  }

  // One step of one handler: the new tables, and the handler unless it ended.
  ghost function StepHandler(db: Db, h: Handler): (Db, Option<Handler>) {
    match h
    case Entered(tenant, request) =>
      if !Admitted(request) || !RoleGuard(db, tenant, request) then (db, None)
      else if request.AssignRequest? && request.project.Some? then (db, Some(ProjectPending(tenant, request)))
      else (db, Some(Running(tenant, Statements(db, request))))
    case ProjectPending(tenant, request) =>
      if request.AssignRequest? && request.project.Some? && ProjectInTenant(db, request.project.value, tenant)
      then (db, Some(Running(tenant, Statements(db, request))))
      else (db, None)
    case Running(tenant, todo) =>
      if todo == [] then (db, None)
      else (After(db, Execute(db, Enforced(Some(tenant)), tenant, todo[0])), Some(Running(tenant, todo[1..])))
  }

  ghost function Step(s: Sys, e: Event): Sys {
    match e
    case Arrive(id, tenant, request) =>
      if id in s.handlers then s else s.(handlers := s.handlers[id := Entered(tenant, request)])
    case Advance(id) =>
      if id !in s.handlers then s else
      var (db, next) := StepHandler(s.db, s.handlers[id]);
      Sys(db, if next.Some? then s.handlers[id := next.value] else s.handlers - {id})
    case Abort(id) => s.(handlers := s.handlers - {id})
    case Register(user, email) => s.(db := After(s.db, CreateUserWithRole(s.db, Bypass, user, email, "user")))
    case Enroll(user) => s.(db := After(s.db, AddMember(s.db, Bypass, user, DEFAULT_TENANT)))
    case NewTenant(id, slug, title, creator) =>
      if slug == "" || title == "" then s
      else s.(db := After(s.db, CreateTenantWithAdmin(s.db, id, slug, title, creator)))
    case HardDelete(user) => s.(db := After(s.db, DeleteUser(s.db, user)))
  }

  ghost function Run(s: Sys, events: seq<Event>): Sys
    decreases |events|
  {
    if events == [] then s else Run(Step(s, events[0]), events[1..])
  }

  // ── Referential invariant over every run ──────────────────

  // A check made in an earlier step still holds when the insert runs: projects
  // are never deleted nor moved, and reserved names never change.
  ghost predicate HandlerOk(db: Db, h: Handler) {
    h.Running? ==> forall st | st in h.todo :: Guarded(db, h.tenant, st)
  }

  ghost predicate SysInv(s: Sys) {
    Inv(s.db) && forall id | id in s.handlers :: HandlerOk(s.db, s.handlers[id])
  }

  ghost predicate ProjectsStay(db: Db, db': Db) {
    forall p | p in db.projects :: p in db'.projects && db'.projects[p] == db.projects[p]
  }

  lemma StatementKeepsProjects(db: Db, s: Session, tenant: Uuid, st: Statement)
    ensures ProjectsStay(db, After(db, Execute(db, s, tenant, st)))
    ensures After(db, Execute(db, s, tenant, st)).permissions == db.permissions
  {
  }

  lemma HandlerStaysOk(db: Db, db': Db, h: Handler)
    requires HandlerOk(db, h) && ProjectsStay(db, db')
    ensures HandlerOk(db', h)
  {
  }

  lemma StatementsAreGuarded(db: Db, tenant: Uuid, request: Request)
    requires Admitted(request)
    requires request.AssignRequest? && request.project.Some? ==> ProjectInTenant(db, request.project.value, tenant)
    ensures HandlerOk(db, Running(tenant, Statements(db, request)))
  {
  }

  // Entered handlers pass the pure checks on their first step; the pending ones
  // are always assignments that name a project.
  lemma HandlerStepIsSafe(db: Db, h: Handler)
    requires Inv(db) && HandlerOk(db, h)
    ensures var (db', next) := StepHandler(db, h);
      Inv(db') && ProjectsStay(db, db') && (next.Some? ==> HandlerOk(db', next.value))
  {
    match h
    case Entered(tenant, request) =>
      if Admitted(request) && !(request.AssignRequest? && request.project.Some?) {
        StatementsAreGuarded(db, tenant, request);
      }
    case ProjectPending(tenant, request) =>
      if request.AssignRequest? && request.project.Some? && ProjectInTenant(db, request.project.value, tenant) {
        StatementsAreGuarded(db, tenant, request);
      }
    case Running(tenant, todo) =>
      if todo != [] {
        StatementKeepsInvariant(db, Enforced(Some(tenant)), tenant, todo[0]);
        StatementKeepsProjects(db, Enforced(Some(tenant)), tenant, todo[0]);
        HandlerStaysOk(db, After(db, Execute(db, Enforced(Some(tenant)), tenant, todo[0])), Running(tenant, todo[1..]));
      }
  }

  predicate Platform(e: Event) {
    !e.Arrive? && !e.Advance? && !e.Abort?
  }

  lemma PlatformStepIsSafe(s: Sys, e: Event)
    requires Inv(s.db) && Platform(e)
    ensures Inv(Step(s, e).db)
  {
    match e
    case Register(user, email) => RegistrationIsSafe(s.db, Bypass, user, email, "user");
    case Enroll(user) => MembershipKeepsInvariant(s.db, Bypass, user, DEFAULT_TENANT);
    case NewTenant(id, slug, title, creator) => CreateTenantKeepsInvariant(s.db, id, slug, title, creator);
    case HardDelete(user) => DeleteUserKeepsInvariant(s.db, user);
  }

  lemma StepKeepsInvariant(s: Sys, e: Event)
    requires SysInv(s)
    ensures SysInv(Step(s, e))
  {
    hide Inv, Guarded;
    var s' := Step(s, e);
    if e.Advance? {
      if e.id in s.handlers { HandlerStepIsSafe(s.db, s.handlers[e.id]); }
    } else if Platform(e) {
      PlatformStepIsSafe(s, e);
    }
    forall id | id in s'.handlers
      ensures HandlerOk(s'.db, s'.handlers[id])
    {
      if id in s.handlers && s'.handlers[id] == s.handlers[id] { HandlerStaysOk(s.db, s'.db, s.handlers[id]); }
    }
  }

  lemma {:induction false} EveryReachableStateIsConsistent(s: Sys, events: seq<Event>)
    requires SysInv(s)
    ensures SysInv(Run(s, events))
    decreases |events|
  {
    if events != [] {
      StepKeepsInvariant(s, events[0]);
      EveryReachableStateIsConsistent(Step(s, events[0]), events[1..]);
    }
  }

  // ── Noninterference between tenants ───────────────────────

  // Everything a tenant's access decisions depend on.
  datatype TenantView = TenantView(
    roles: map<RoleId, RoleRow>,
    grants: set<(RoleId, PermId)>,
    permissions: map<PermId, string>,
    assignments: set<Assignment>,
    projects: map<Uuid, ProjectRow>,
    members: map<(Uuid, Uuid), bool>)

  predicate SeenIn(row: RoleRow, tenant: Uuid) {
    row.tenant == None || row.tenant == Some(tenant)
  }

  function RolesIn(roles: map<RoleId, RoleRow>, tenant: Uuid): map<RoleId, RoleRow> {
    map r | r in roles && SeenIn(roles[r], tenant) :: roles[r]
  }

  function GrantsIn(roles: map<RoleId, RoleRow>, grants: set<(RoleId, PermId)>, tenant: Uuid): set<(RoleId, PermId)> {
    set rp | rp in grants && rp.0 in roles && SeenIn(roles[rp.0], tenant)
  }

  function AssignmentsIn(assignments: set<Assignment>, tenant: Uuid): set<Assignment> {
    set a | a in assignments && a.tenant == tenant
  }

  function ProjectsIn(projects: map<Uuid, ProjectRow>, tenant: Uuid): map<Uuid, ProjectRow> {
    map p | p in projects && projects[p].tenant == tenant :: projects[p]
  }

  function MembersIn(memberships: map<(Uuid, Uuid), bool>, tenant: Uuid): map<(Uuid, Uuid), bool> {
    map m | m in memberships && m.1 == tenant :: memberships[m]
  }

  function View(db: Db, tenant: Uuid): TenantView {
    TenantView(RolesIn(db.roles, tenant), GrantsIn(db.roles, db.rolePermissions, tenant), db.permissions,
      AssignmentsIn(db.assignments, tenant), ProjectsIn(db.projects, tenant), MembersIn(db.memberships, tenant))
  }

  // The view determines every scoped answer and the permissions of every
  // template, with or without row security.
  lemma ViewDeterminesAccess(db: Db, db': Db, tenant: Uuid, s: Session, user: Uuid, project: Option<Uuid>, role: RoleId)
    requires Inv(db) && Inv(db') && View(db, tenant) == View(db', tenant)
    ensures RolesScoped(db, s, user, tenant, project) == RolesScoped(db', s, user, tenant, project)
    ensures PermissionsScoped(db, s, user, tenant, project) == PermissionsScoped(db', s, user, tenant, project)
    ensures role in db.roles && db.roles[role].tenant.None? ==> role in db'.roles && db'.roles[role] == db.roles[role]
    ensures role in db.roles && db.roles[role].tenant.None? ==>
      forall p :: (role, p) in db.rolePermissions <==> (role, p) in db'.rolePermissions
  {
    ScopedPart(db, db', tenant, s, user, project);
    ScopedPart(db', db, tenant, s, user, project);
    if role in db.roles && db.roles[role].tenant.None? {
      assert role in View(db, tenant).roles;
      forall p
        ensures (role, p) in db.rolePermissions <==> (role, p) in db'.rolePermissions
      {
        assert (role, p) in View(db, tenant).grants <==> (role, p) in db.rolePermissions;
        assert (role, p) in View(db', tenant).grants <==> (role, p) in db'.rolePermissions;
      }
    }
  }

  lemma ScopedPart(db: Db, db': Db, tenant: Uuid, s: Session, user: Uuid, project: Option<Uuid>)
    requires Inv(db) && Inv(db') && View(db, tenant) == View(db', tenant)
    ensures RolesScoped(db, s, user, tenant, project) <= RolesScoped(db', s, user, tenant, project)
    ensures PermissionsScoped(db, s, user, tenant, project) <= PermissionsScoped(db', s, user, tenant, project)
  {
    forall a | a in ScopedAssignments(db, s, user, tenant, project)
      ensures a in ScopedAssignments(db', s, user, tenant, project)
      ensures a.role in db.roles && a.role in db'.roles && db.roles[a.role] == db'.roles[a.role]
      ensures forall p :: (a.role, p) in db.rolePermissions ==> (a.role, p) in db'.rolePermissions
    {
      assert a in View(db, tenant).assignments;
      assert AssignmentOk(db, a);
      assert a.role in View(db, tenant).roles;
      forall p | (a.role, p) in db.rolePermissions
        ensures (a.role, p) in db'.rolePermissions
      {
        assert (a.role, p) in View(db, tenant).grants;
      }
    }
  }

  // A statement of another tenant leaves the view as it was, also through the
  // cascade of a deleted role.
  lemma StatementLeavesOthersAlone(db: Db, s: Session, tenant: Uuid, st: Statement, other: Uuid)
    requires Inv(db) && tenant != other
    ensures View(After(db, Execute(db, s, tenant, st)), other) == View(db, other)
  {
    match st
    case Assign(user, role, project) => AssignLeavesOthersAlone(db, s, tenant, user, role, project, other);
    case Unassign(user, role, project) => UnassignLeavesOthersAlone(db, s, tenant, user, role, project, other);
    case NewRole(id, role, description) => NewRoleLeavesOthersAlone(db, s, tenant, id, role, description, other);
    case DescribeRole(role, description) => DescribeLeavesOthersAlone(db, s, tenant, role, description, other);
    case DropRole(role) => DropLeavesOthersAlone(db, s, tenant, role, other);
    case Grant(role, permission) => GrantsLeaveOthersAlone(db, s, tenant, role, permission, other);
    case Ungrant(role, permission) => GrantsLeaveOthersAlone(db, s, tenant, role, permission, other);
    case NewProject(id, slug, name) => ProjectLeavesOthersAlone(db, s, tenant, id, slug, name, other);
    case Join(user) => JoinLeavesOthersAlone(db, s, tenant, user, other);
    case Leave(user) => LeaveLeavesOthersAlone(db, s, tenant, user, other);
  }

  lemma AssignLeavesOthersAlone(
    db: Db, s: Session, tenant: Uuid, user: Uuid, role: string, project: Option<Uuid>, other: Uuid)
    requires tenant != other
    ensures View(After(db, AssignRole(db, s, user, role, tenant, project)), other) == View(db, other)
  {
  }

  lemma UnassignLeavesOthersAlone(
    db: Db, s: Session, tenant: Uuid, user: Uuid, role: string, project: Option<Uuid>, other: Uuid)
    requires tenant != other
    ensures View(After(db, RevokeRole(db, s, user, role, tenant, project)), other) == View(db, other)
  {
  }

  lemma NewRoleLeavesOthersAlone(
    db: Db, s: Session, tenant: Uuid, id: RoleId, role: string, description: string, other: Uuid)
    requires Inv(db) && tenant != other
    ensures View(After(db, CreateRole(db, s, id, role, description, tenant)), other) == View(db, other)
  {
    var db' := After(db, CreateRole(db, s, id, role, description, tenant));
    assert View(db', other).roles == View(db, other).roles;
    assert View(db', other).grants == View(db, other).grants;
  }

  lemma DescribeLeavesOthersAlone(db: Db, s: Session, tenant: Uuid, role: string, description: string, other: Uuid)
    requires tenant != other
    ensures View(After(db, UpdateRole(db, s, role, description, tenant)), other) == View(db, other)
  {
  }

  lemma OwnRolesAreUnusedElsewhere(db: Db, s: Session, role: string, tenant: Uuid, other: Uuid)
    requires Inv(db) && tenant != other
    ensures forall a | a in AssignmentsIn(db.assignments, other) :: a.role !in OwnRoles(db, s, role, tenant)
  {
  }

  lemma DropLeavesOthersAlone(db: Db, s: Session, tenant: Uuid, role: string, other: Uuid)
    requires Inv(db) && tenant != other
    ensures View(After(db, DeleteRole(db, s, role, tenant)), other) == View(db, other)
  {
    hide Inv;
    var db' := After(db, DeleteRole(db, s, role, tenant));
    OwnRolesAreUnusedElsewhere(db, s, role, tenant, other);
    assert View(db', other).roles == View(db, other).roles;
    assert View(db', other).grants == View(db, other).grants;
    assert View(db', other).assignments == View(db, other).assignments;
  }

  lemma GrantsLeaveOthersAlone(db: Db, s: Session, tenant: Uuid, role: string, permission: string, other: Uuid)
    requires tenant != other
    ensures View(After(db, GrantPermission(db, s, role, permission, tenant)), other) == View(db, other)
    ensures View(After(db, RevokePermission(db, s, role, permission, tenant)), other) == View(db, other)
  {
  }

  lemma ProjectLeavesOthersAlone(
    db: Db, s: Session, tenant: Uuid, id: RandomUuid, slug: string, name: string, other: Uuid)
    requires tenant != other
    ensures View(After(db, CreateProject(db, s, id, slug, name, tenant)), other) == View(db, other)
  {
  }

  lemma JoinLeavesOthersAlone(db: Db, s: Session, tenant: Uuid, user: Uuid, other: Uuid)
    requires tenant != other
    ensures View(After(db, AddMember(db, s, user, tenant)), other) == View(db, other)
  {
  }

  lemma LeaveLeavesOthersAlone(db: Db, s: Session, tenant: Uuid, user: Uuid, other: Uuid)
    requires tenant != other
    ensures View(After(db, RemoveMember(db, s, user, tenant)), other) == View(db, other)
  {
  }

  // An event concerns a tenant when it runs one of the tenant's handlers,
  // enrolls somebody there, creates it, or deletes a user present in it. Deletion is
  // open to administrators of every tenant and reaches all of a user's tenants.
  ghost predicate Concerns(s: Sys, e: Event, tenant: Uuid) {
    match e
    case Arrive(_, _, _) => false
    case Abort(_) => false
    case Advance(id) => id in s.handlers && s.handlers[id].tenant == tenant
    case Register(_, _) => tenant == DEFAULT_TENANT
    case Enroll(_) => tenant == DEFAULT_TENANT
    case NewTenant(id, _, _, _) => id == tenant
    case HardDelete(user) =>
      (user, tenant) in s.db.memberships || exists a | a in s.db.assignments :: a.user == user && a.tenant == tenant
  }

  lemma PlatformStepLeavesOthersAlone(s: Sys, e: Event, tenant: Uuid)
    requires Inv(s.db) && !Concerns(s, e, tenant) && Platform(e)
    ensures View(Step(s, e).db, tenant) == View(s.db, tenant)
  {
    match e
    case Register(user, email) => RegisterLeavesOthersAlone(s.db, user, email, tenant);
    case Enroll(user) => JoinLeavesOthersAlone(s.db, Bypass, DEFAULT_TENANT, user, tenant);
    case NewTenant(id, slug, title, creator) => NewTenantLeavesOthersAlone(s.db, id, slug, title, creator, tenant);
    case HardDelete(user) => DeleteLeavesOthersAlone(s.db, user, tenant);
  }

  lemma RegisterLeavesOthersAlone(db: Db, user: RandomUuid, email: string, other: Uuid)
    requires other != DEFAULT_TENANT
    ensures View(After(db, CreateUserWithRole(db, Bypass, user, email, "user")), other) == View(db, other)
  {
  }

  lemma NewTenantLeavesOthersAlone(db: Db, id: RandomUuid, slug: string, name: string, creator: Uuid, other: Uuid)
    requires other != id
    ensures View(After(db, CreateTenantWithAdmin(db, id, slug, name, creator)), other) == View(db, other)
  {
    hide FirstAdminRows, AddMember;
    var db1 := db.(tenants := db.tenants[id := TenantRow(slug, name, true)]);
    var db2 := After(db1, AddMember(db1, Bypass, creator, id));
    JoinLeavesOthersAlone(db1, Bypass, id, creator, other);
    FirstAdminStaysInTenant(db2, creator, id);
    assert AssignmentsIn(db2.assignments + FirstAdminRows(db2, creator, id), other) == AssignmentsIn(db2.assignments, other);
  }

  lemma FirstAdminStaysInTenant(db: Db, creator: Uuid, tenant: Uuid)
    ensures forall a | a in FirstAdminRows(db, creator, tenant) :: a.tenant == tenant
  {
  }

  lemma DeleteLeavesOthersAlone(db: Db, user: Uuid, other: Uuid)
    requires (user, other) !in db.memberships
    requires forall a | a in db.assignments :: !(a.user == user && a.tenant == other)
    ensures View(After(db, DeleteUser(db, user)), other) == View(db, other)
  {
  }

  // Deleting a user takes no tenant: whoever asks for it, it leaves a tenant alone
  // exactly when the user neither belongs to it nor holds a role there.
  lemma DeleteLeavesOthersAloneExactly(db: Db, user: Uuid, other: Uuid)
    ensures View(After(db, DeleteUser(db, user)), other) == View(db, other) <==>
            (user, other) !in db.memberships && forall a | a in db.assignments :: !(a.user == user && a.tenant == other)
  {
    var view, view' := View(db, other), View(After(db, DeleteUser(db, user)), other);
    assert (user, other) !in view'.members && ((user, other) in db.memberships ==> (user, other) in view.members);
    assert forall a | a in view'.assignments :: a.user != user;
    assert forall a | a in db.assignments && a.tenant == other :: a in view.assignments;
  }

  lemma StepLeavesOthersAlone(s: Sys, e: Event, tenant: Uuid)
    requires SysInv(s) && !Concerns(s, e, tenant)
    ensures View(Step(s, e).db, tenant) == View(s.db, tenant)
  {
    if e.Advance? {
      if e.id in s.handlers && s.handlers[e.id].Running? && s.handlers[e.id].todo != [] {
        var h := s.handlers[e.id];
        StatementLeavesOthersAlone(s.db, Enforced(Some(h.tenant)), h.tenant, h.todo[0], tenant);
      }
    } else if Platform(e) {
      PlatformStepLeavesOthersAlone(s, e, tenant);
    }
  }

  ghost predicate NeverConcerns(s: Sys, events: seq<Event>, tenant: Uuid)
    decreases |events|
  {
    events == [] ||
    (!Concerns(s, events[0], tenant) && NeverConcerns(Step(s, events[0]), events[1..], tenant))
  }

  lemma {:induction false} RunLeavesOthersAlone(s: Sys, events: seq<Event>, tenant: Uuid)
    requires SysInv(s) && NeverConcerns(s, events, tenant)
    ensures View(Run(s, events).db, tenant) == View(s.db, tenant)
    decreases |events|
  {
    if events != [] {
      StepKeepsInvariant(s, events[0]);
      StepLeavesOthersAlone(s, events[0], tenant);
      RunLeavesOthersAlone(Step(s, events[0]), events[1..], tenant);
    }
  }

  // Handlers keep their tenant, so runs of other tenants' role, member and project
  // handlers qualify.
  lemma {:induction false} RunsOfOthersNeverConcern(s: Sys, events: seq<Event>, tenant: Uuid)
    requires forall id | id in s.handlers :: s.handlers[id].tenant != tenant
    requires forall e | e in events :: !Platform(e) && (e.Arrive? ==> e.tenant != tenant)
    ensures NeverConcerns(s, events, tenant)
    decreases |events|
  {
    if events != [] {
      assert events[0] in events;
      RunsOfOthersNeverConcern(Step(s, events[0]), events[1..], tenant);
    }
  }

  // Whatever the other tenants' role, member and project handlers do, in whatever
  // order, nobody's access in this tenant changes, nor any template's permissions.
  // Deleting a user is the exception: only of users who are not in this tenant.
  lemma Noninterference(s: Sys, events: seq<Event>, tenant: Uuid, user: Uuid, project: Option<Uuid>, role: RoleId)
    requires SysInv(s) && NeverConcerns(s, events, tenant)
    ensures var before, after, own := s.db, Run(s, events).db, Enforced(Some(tenant));
      && RolesScoped(after, own, user, tenant, project) == RolesScoped(before, own, user, tenant, project)
      && PermissionsScoped(after, own, user, tenant, project) == PermissionsScoped(before, own, user, tenant, project)
      && (role in before.roles && before.roles[role].tenant.None? ==>
        forall p :: (role, p) in before.rolePermissions <==> (role, p) in after.rolePermissions)
  {
    EveryReachableStateIsConsistent(s, events);
    RunLeavesOthersAlone(s, events, tenant);
    ViewDeterminesAccess(s.db, Run(s, events).db, tenant, Enforced(Some(tenant)), user, project, role);
  }
}
