// What each administration request does when its handler has the store to itself:
// which requests are refused, and which statement the others come down to.
module RbacRequests {
  import opened Sql
  import opened Rbac
  import opened RbacInvariant
  import opened RbacRls
  import opened RbacSystem
  import opened RbacEffects

  // The handler's steps one after the other, as many as it could need.
  ghost function Finish(db: Db, h: Handler, fuel: nat): Db
    decreases fuel
  {
    if fuel == 0 then db
    else
      var (db', next) := StepHandler(db, h);
      if next.None? then db' else Finish(db', next.value, fuel - 1)
  }

  ghost function Handled(db: Db, tenant: Uuid, request: Request): Db {
    Finish(db, Entered(tenant, request), 5)
  }

  ghost function Own(tenant: Uuid): Session {
    Enforced(Some(tenant))
  }

  lemma OneStatement(db: Db, tenant: Uuid, st: Statement)
    ensures Finish(db, Running(tenant, [st]), 4) == After(db, Execute(db, Own(tenant), tenant, st))
  {
    hide Execute;
    var db1 := After(db, Execute(db, Own(tenant), tenant, st));
    assert [st][1..] == [];
    assert StepHandler(db, Running(tenant, [st])) == (db1, Some(Running(tenant, [])));
    assert StepHandler(db1, Running(tenant, [])) == (db1, None);
    assert Finish(db1, Running(tenant, []), 3) == db1;
  }

  // Reserved and empty names are refused.
  lemma CreateRoleHandled(db: Db, tenant: Uuid, id: RoleId, name: string, description: string)
    ensures Handled(db, tenant, CreateRoleRequest(id, name, description)) ==
            if name == "" || name == "admin" || name == "user" then db
            else After(db, CreateRole(db, Own(tenant), id, name, description, tenant))
  {
    OneStatement(db, tenant, NewRole(id, name, description));
    hide CreateRole;
  }

  // What is not there cannot be changed: the statement then finds nothing, so the
  // guards decide only what is answered.
  lemma UpdateRoleHandled(db: Db, tenant: Uuid, name: string, description: string)
    requires Inv(db)
    ensures Handled(db, tenant, UpdateRoleRequest(name, description)) ==
            After(db, UpdateRole(db, Own(tenant), name, description, tenant))
  {
    OneStatement(db, tenant, DescribeRole(name, description));
    if IsBuiltinRole(name) || !TenantRoleExists(db, name, tenant) {
      NoOwnRole(db, tenant, name);
      assert UpdateRole(db, Own(tenant), name, description, tenant).db.roles == db.roles;
    }
    hide UpdateRole;
  }

  lemma NoOwnRole(db: Db, tenant: Uuid, name: string)
    requires Inv(db) && (IsBuiltinRole(name) || !TenantRoleExists(db, name, tenant))
    ensures OwnRoles(db, Own(tenant), name, tenant) == {}
  {
    OwnAndTemplatesSurvive(db, tenant, name);
  }

  lemma DeleteRoleHandled(db: Db, tenant: Uuid, name: string)
    requires Inv(db)
    ensures Handled(db, tenant, DeleteRoleRequest(name)) == After(db, DeleteRole(db, Own(tenant), name, tenant))
  {
    OneStatement(db, tenant, DropRole(name));
    if IsBuiltinRole(name) || !TenantRoleExists(db, name, tenant) {
      NoOwnRole(db, tenant, name);
      hide OwnRoles, Inv;
      var after := DeleteRole(db, Own(tenant), name, tenant).db;
      assert after.assignments == db.assignments && after.rolePermissions == db.rolePermissions && after.roles == db.roles;
    }
    hide DeleteRole;
  }

  lemma GrantHandled(db: Db, tenant: Uuid, name: string, permission: string)
    requires Inv(db)
    ensures Handled(db, tenant, GrantRequest(name, permission)) ==
            After(db, GrantPermission(db, Own(tenant), name, permission, tenant))
  {
    OneStatement(db, tenant, Grant(name, permission));
    if IsBuiltinRole(name) || !TenantRoleExists(db, name, tenant) {
      NoOwnRole(db, tenant, name);
      assert GrantPermission(db, Own(tenant), name, permission, tenant).db.rolePermissions == db.rolePermissions;
    }
    hide GrantPermission;
  }

  lemma UngrantHandled(db: Db, tenant: Uuid, name: string, permission: string)
    requires Inv(db)
    ensures Handled(db, tenant, UngrantRequest(name, permission)) ==
            After(db, RevokePermission(db, Own(tenant), name, permission, tenant))
  {
    hide RevokePermission;
    OneStatement(db, tenant, Ungrant(name, permission));
    if IsBuiltinRole(name) || !TenantRoleExists(db, name, tenant) {
      NoOwnRole(db, tenant, name);
      NothingToUngrant(db, tenant, name, permission);
    }
    hide Inv;
  }

  lemma NothingToUngrant(db: Db, tenant: Uuid, name: string, permission: string)
    requires OwnRoles(db, Own(tenant), name, tenant) == {}
    ensures After(db, RevokePermission(db, Own(tenant), name, permission, tenant)) == db
  {
    hide OwnRoles;
    var tx := RevokePermission(db, Own(tenant), name, permission, tenant);
    assert tx.Commit? ==> tx.db.rolePermissions == db.rolePermissions;
  }

  // A name that does not resolve here, or a project of another tenant, is refused.
  lemma AssignHandled(db: Db, tenant: Uuid, user: Uuid, name: string, project: Option<Uuid>)
    ensures Handled(db, tenant, AssignRequest([user], name, project)) ==
            if ResolveRole(db, Own(tenant), name, tenant).None?
               || (project.Some? && !(project.value in db.projects && db.projects[project.value].tenant == tenant)) then db
            else After(db, AssignRole(db, Own(tenant), user, name, tenant, project))
  {
    GuardMeansResolvable(db, name, tenant);
    var st := Assign(user, name, project);
    OneStatement(db, tenant, st);
    assert Statements(db, AssignRequest([user], name, project)) == [st];
    FinishLonger(db, Running(tenant, [st]));
    hide AssignRole, ResolveRole, RoleInTenant, Statements, ProjectInTenant;
    var request := AssignRequest([user], name, project);
    var (db1, next) := StepHandler(db, Entered(tenant, request));
    assert db1 == db;
    if next == Some(ProjectPending(tenant, request)) {
      assert Handled(db, tenant, request) == Finish(db, ProjectPending(tenant, request), 4);
      var (db2, next2) := StepHandler(db, ProjectPending(tenant, request));
      if next2.Some? {
        assert next2 == Some(Running(tenant, [st]));
        assert Finish(db, ProjectPending(tenant, request), 4) == Finish(db, Running(tenant, [st]), 3);
      }
      ProjectGuard(db, project.value, tenant);
    }
  }

  lemma GuardMeansResolvable(db: Db, name: string, tenant: Uuid)
    ensures RoleInTenant(db, name, tenant) <==> ResolveRole(db, Own(tenant), name, tenant).Some?
  {
    OwnAndTemplatesSurvive(db, tenant, name);
  }

  lemma ProjectGuard(db: Db, project: Uuid, tenant: Uuid)
    ensures ProjectInTenant(db, project, tenant) <==> project in db.projects && db.projects[project].tenant == tenant
  {
  }

  // One statement takes two steps, so the extra one is not used.
  lemma FinishLonger(db: Db, h: Handler)
    requires h.Running? && |h.todo| == 1
    ensures Finish(db, h, 3) == Finish(db, h, 4)
  {
    hide Execute;
  }

  lemma UnassignHandled(db: Db, tenant: Uuid, user: Uuid, name: string, project: Option<Uuid>)
    ensures Handled(db, tenant, UnassignRequest(user, name, project)) ==
            After(db, RevokeRole(db, Own(tenant), user, name, tenant, project))
  {
    OneStatement(db, tenant, Unassign(user, name, project));
    if !RoleExists(db, name) {
      assert forall r | r in VisibleRoles(db, Own(tenant), name) :: r in VisibleRoles(db, Bypass, name);
      assert VisibleRoles(db, Own(tenant), name) == {};
      hide VisibleRoles;
      assert RevokeRole(db, Own(tenant), user, name, tenant, project).db.assignments == db.assignments;
    }
    hide RevokeRole;
  }

  lemma CreateProjectHandled(db: Db, tenant: Uuid, id: RandomUuid, slug: string, title: string)
    ensures Handled(db, tenant, CreateProjectRequest(id, slug, title)) ==
            if slug == "" || title == "" then db
            else After(db, CreateProject(db, Own(tenant), id, slug, title, tenant))
  {
    OneStatement(db, tenant, NewProject(id, slug, title));
    hide CreateProject;
  }

  // Exactly the user with the address is enrolled, if there is one.
  lemma AddMemberHandled(db: Db, tenant: Uuid, email: string, user: Uuid)
    requires Inv(db)
    ensures var db' := Handled(db, tenant, AddMemberRequest(email));
            && (user in db.users && db.users[user] == email ==> db' == After(db, AddMember(db, Own(tenant), user, tenant)))
            && ((forall u | u in db.users :: db.users[u] != email) ==> db' == db)
  {
    hide AddMember, Inv;
    if user in db.users && db.users[user] == email {
      EmailFindsOne(db, email, user);
      OneStatement(db, tenant, Join(user));
    } else if forall u | u in db.users :: db.users[u] != email {
      assert UsersByEmail(db, email) == {};
      assert StepHandler(db, Running(tenant, [])) == (db, None);
      assert Finish(db, Running(tenant, []), 4) == db;
    }
  }

  lemma EmailFindsOne(db: Db, email: string, user: Uuid)
    requires Inv(db) && user in db.users && db.users[user] == email
    ensures UsersByEmail(db, email) == {user} && Pick(UsersByEmail(db, email)) == user
  {
    PickOfSingleton(UsersByEmail(db, email), user);
  }

  lemma RemoveMemberHandled(db: Db, tenant: Uuid, user: Uuid)
    ensures Handled(db, tenant, RemoveMemberRequest(user)) == After(db, RemoveMember(db, Own(tenant), user, tenant))
  {
    OneStatement(db, tenant, Leave(user));
    hide RemoveMember;
  }

  // The requests that take no tenant. A registration gives the role `user` in the
  // default tenant; a tenant needs a slug and a name.
  lemma PlatformHandled(s: Sys, user: RandomUuid, email: string, id: RandomUuid, slug: string, title: string, member: Uuid)
    ensures RbacSystem.Step(s, Register(user, email)) ==
            s.(db := After(s.db, CreateUserWithRole(s.db, Bypass, user, email, "user")))
    ensures RbacSystem.Step(s, Enroll(member)) == s.(db := After(s.db, AddMember(s.db, Bypass, member, DEFAULT_TENANT)))
    ensures RbacSystem.Step(s, NewTenant(id, slug, title, member)) ==
            s.(db := if slug == "" || title == "" then s.db
                     else After(s.db, CreateTenantWithAdmin(s.db, id, slug, title, member)))
    ensures RbacSystem.Step(s, HardDelete(member)) == s.(db := After(s.db, DeleteUser(s.db, member)))
  {
  }

  ghost predicate RefusedAtOnce(db: Db, tenant: Uuid, request: Request) {
    StepHandler(db, Entered(tenant, request)) == (db, None)
  }

  ghost predicate OwnsRole(db: Db, tenant: Uuid, name: string) {
    exists r | r in db.roles :: db.roles[r].name == name && db.roles[r].tenant == Some(tenant)
  }

  // Requests about a role the tenant does not own itself are over at their first step,
  // whatever is created afterwards; so are those about reserved names.
  lemma RoleRequestsRefusedExactly(db: Db, tenant: Uuid, name: string, permission: string)
    ensures var refused := name == "admin" || name == "user" || !OwnsRole(db, tenant, name);
            && (RefusedAtOnce(db, tenant, DeleteRoleRequest(name)) <==> refused)
            && (RefusedAtOnce(db, tenant, GrantRequest(name, permission)) <==> refused)
            && (RefusedAtOnce(db, tenant, UngrantRequest(name, permission)) <==> refused)
    ensures RefusedAtOnce(db, tenant, UpdateRoleRequest(name, permission)) <==> name == "admin" || name == "user"
  {
    if r :| r in db.roles && db.roles[r].name == name && db.roles[r].tenant == Some(tenant) {
      assert r in OwnRoles(db, Bypass, name, tenant);
    }
  }

  // Giving a role needs one the tenant can use, taking one away only one of that name.
  lemma AssignmentRequestsRefusedExactly(db: Db, tenant: Uuid, users: seq<Uuid>, user: Uuid, name: string, project: Option<Uuid>)
    ensures RefusedAtOnce(db, tenant, AssignRequest(users, name, project)) <==>
              forall r | r in db.roles :: !(db.roles[r].name == name && (db.roles[r].tenant == None || db.roles[r].tenant == Some(tenant)))
    ensures RefusedAtOnce(db, tenant, UnassignRequest(user, name, project)) <==>
              forall r | r in db.roles :: db.roles[r].name != name
  {
    RoleGuardMeansResolvable(db, name, tenant);
    if r :| r in db.roles && db.roles[r].name == name && (db.roles[r].tenant == None || db.roles[r].tenant == Some(tenant)) {
      assert r in OwnRoles(db, Bypass, name, tenant) + Templates(db, Bypass, name);
    }
  }
}
