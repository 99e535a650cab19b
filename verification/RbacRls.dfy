// What row security changes, and what it does not: statements of one tenant run
// under its own setting behave as on a superuser connection, with two exceptions
// whose exact conditions are stated; under any other setting they write nothing.
module RbacRls {
  import opened Sql
  import opened Rbac
  import opened RbacInvariant

  // The statements a tenant administrator triggers, each run for one tenant.
  datatype Statement =
    | Assign(user: Uuid, role: string, project: Option<Uuid>)
    | Unassign(user: Uuid, role: string, project: Option<Uuid>)
    | NewRole(id: RoleId, role: string, description: string)
    | DescribeRole(role: string, description: string)
    | DropRole(role: string)
    | Grant(role: string, permission: string)
    | Ungrant(role: string, permission: string)
    | NewProject(newId: RandomUuid, slug: string, name: string)
    | Join(user: Uuid)
    | Leave(user: Uuid)

  ghost function Execute(db: Db, s: Session, tenant: Uuid, st: Statement): Tx {
    match st
    case Assign(user, role, project) => AssignRole(db, s, user, role, tenant, project)
    case Unassign(user, role, project) => RevokeRole(db, s, user, role, tenant, project)
    case NewRole(id, role, description) => CreateRole(db, s, id, role, description, tenant)
    case DescribeRole(role, description) => UpdateRole(db, s, role, description, tenant)
    case DropRole(role) => DeleteRole(db, s, role, tenant)
    case Grant(role, permission) => GrantPermission(db, s, role, permission, tenant)
    case Ungrant(role, permission) => RevokePermission(db, s, role, permission, tenant)
    case NewProject(id, slug, name) => CreateProject(db, s, id, slug, name, tenant)
    case Join(user) => AddMember(db, s, user, tenant)
    case Leave(user) => RemoveMember(db, s, user, tenant)
  }

  // What a handler must have established before it runs the statement.
  predicate Guarded(db: Db, tenant: Uuid, st: Statement) {
    match st
    case Assign(_, _, project) => project.Some? ==> ProjectInTenant(db, project.value, tenant)
    case NewRole(_, role, _) => !IsBuiltinRole(role)
    case _ => true
  }

  lemma StatementKeepsInvariant(db: Db, s: Session, tenant: Uuid, st: Statement)
    requires Inv(db) && Guarded(db, tenant, st)
    ensures Inv(After(db, Execute(db, s, tenant, st)))
  {
    match st
    case Assign(user, role, project) => AssignRoleKeepsInvariant(db, s, user, role, tenant, project);
    case Unassign(user, role, project) => RevokeRoleKeepsInvariant(db, s, user, role, tenant, project);
    case NewRole(id, role, description) => CreateRoleKeepsInvariant(db, s, id, role, description, tenant);
    case DescribeRole(role, description) => UpdateRoleKeepsInvariant(db, s, role, description, tenant);
    case DropRole(role) => DeleteRoleKeepsInvariant(db, s, role, tenant);
    case Grant(role, permission) => GrantPermissionKeepsInvariant(db, s, role, permission, tenant);
    case Ungrant(role, permission) => RevokePermissionKeepsInvariant(db, s, role, permission, tenant);
    case NewProject(id, slug, name) => CreateProjectKeepsInvariant(db, s, id, slug, name, tenant);
    case Join(user) => MembershipKeepsInvariant(db, s, user, tenant);
    case Leave(user) => MembershipKeepsInvariant(db, s, user, tenant);
  }

  // ── Policies ──────────────────────────────────────────────

  // Failing closed only takes rows away, and only while the setting is unset:
  // then exactly the rows without a tenant stay visible.
  lemma FailClosedTightens(setting: Option<Uuid>, tenant: Option<Uuid>)
    ensures Holds(PolicyFailClosed(setting, tenant)) ==> Holds(PolicyPermissiveWhenUnset(setting, tenant))
    ensures setting.Some? ==> PolicyFailClosed(setting, tenant) == PolicyPermissiveWhenUnset(setting, tenant)
    ensures setting.None? ==> (Holds(PolicyFailClosed(setting, tenant)) <==> tenant.None?)
    ensures setting.None? ==> Holds(PolicyPermissiveWhenUnset(setting, tenant))
  {
  }

  // Which rows a session sees and may write: on the three tables of tenant business
  // the unowned ones and those of its tenant, on the others all.
  lemma PermitsExactly(s: Session, t: Table, tenant: Option<Uuid>)
    ensures Permits(s, t, tenant) <==>
            || s.Bypass? || (t != Roles && t != UserRoles && t != Projects)
            || tenant == None || (s.setting != None && tenant == s.setting)
  {
  }

  lemma OwnAndTemplatesSurvive(db: Db, tenant: Uuid, name: string)
    ensures OwnRoles(db, Enforced(Some(tenant)), name, tenant) == OwnRoles(db, Bypass, name, tenant)
    ensures Templates(db, Enforced(Some(tenant)), name) == Templates(db, Bypass, name)
    ensures VisibleRoles(db, Enforced(Some(tenant)), name)
      == OwnRoles(db, Bypass, name, tenant) + Templates(db, Bypass, name)
  {
  }

  // ── Agreement ─────────────────────────────────────────────

  lemma StatementsAgree(db: Db, tenant: Uuid, st: Statement)
    requires !st.Unassign?
    ensures Execute(db, Enforced(Some(tenant)), tenant, st) == Execute(db, Bypass, tenant, st)
  {
    if st.Assign? || st.DescribeRole? || st.DropRole? || st.Grant? || st.Ungrant? {
      OwnAndTemplatesSurvive(db, tenant, st.role);
    }
  }

  lemma QueriesAgree(db: Db, user: Uuid, tenant: Uuid, project: Option<Uuid>)
    requires Inv(db)
    ensures RolesScoped(db, Enforced(Some(tenant)), user, tenant, project) == RolesScoped(db, Bypass, user, tenant, project)
    ensures PermissionsScoped(db, Enforced(Some(tenant)), user, tenant, project)
      == PermissionsScoped(db, Bypass, user, tenant, project)
    ensures ProjectsOfTenant(db, Enforced(Some(tenant)), tenant) == ProjectsOfTenant(db, Bypass, tenant)
    ensures MembersOfTenant(db, Enforced(Some(tenant)), tenant) == MembersOfTenant(db, Bypass, tenant)
  {
    var s := Enforced(Some(tenant));
    assert ScopedAssignments(db, s, user, tenant, project) == ScopedAssignments(db, Bypass, user, tenant, project);
    forall a | a in ScopedAssignments(db, Bypass, user, tenant, project)
      ensures a.role in db.roles && Permits(s, Roles, db.roles[a.role].tenant)
    {
      assert AssignmentOk(db, a);
    }
  }

  // revoke_role depends on row security: the two evaluations agree exactly when
  // the name is not shared, or is already shared within what the tenant sees.
  lemma RevokeRoleAgreesExactly(db: Db, user: Uuid, role: string, tenant: Uuid, project: Option<Uuid>)
    requires Inv(db)
    ensures RevokeRole(db, Enforced(Some(tenant)), user, role, tenant, project)
         == RevokeRole(db, Bypass, user, role, tenant, project)
      <==> (|VisibleRoles(db, Bypass, role)| <= 1 || |VisibleRoles(db, Enforced(Some(tenant)), role)| > 1)
  {
    hide Inv;
    var s := Enforced(Some(tenant));
    var seen, all := VisibleRoles(db, s, role), VisibleRoles(db, Bypass, role);
    assert seen <= all;
    SubsetSize(seen, all);
    if |all| <= 1 {
      AssignedRolesAreSeen(db, role, tenant);
      var kept := set a | a in db.assignments && !(
        Permits(s, UserRoles, Some(a.tenant)) && a.user == user && a.role in seen && a.tenant == tenant && a.project == project);
      var kept' := set a | a in db.assignments && !(
        Permits(Bypass, UserRoles, Some(a.tenant)) && a.user == user && a.role in all && a.tenant == tenant && a.project == project);
      assert kept == kept';
    }
  }

  // What a tenant's assignments refer to is visible to it.
  lemma AssignedRolesAreSeen(db: Db, role: string, tenant: Uuid)
    requires Inv(db)
    ensures forall a | a in db.assignments && a.tenant == tenant && a.role in VisibleRoles(db, Bypass, role) ::
              a.role in VisibleRoles(db, Enforced(Some(tenant)), role)
  {
    forall a | a in db.assignments && a.tenant == tenant && a.role in VisibleRoles(db, Bypass, role)
      ensures a.role in VisibleRoles(db, Enforced(Some(tenant)), role)
    {
      assert AssignmentOk(db, a);
    }
  }

  // The default-role insert of registration agrees exactly when the name is not
  // owned by another tenant; for `user` the reserved names make it so.
  lemma RegistrationAgreesExactly(db: Db, id: RandomUuid, email: string, role: string)
    requires Inv(db)
    requires CreateUserWithRole(db, Bypass, id, email, role).Commit?
    ensures CreateUserWithRole(db, Enforced(Some(DEFAULT_TENANT)), id, email, role)
         == CreateUserWithRole(db, Bypass, id, email, role)
      <==> !ForeignRoleNamed(db, Bypass, role)
    ensures IsBuiltinRole(role) ==> !ForeignRoleNamed(db, Bypass, role)
  {
    var s := Enforced(Some(DEFAULT_TENANT));
    var seen, all := VisibleRoles(db, s, role), VisibleRoles(db, Bypass, role);
    if ForeignRoleNamed(db, Bypass, role) {
      var r :| r in all && !UsableIn(db, r, DEFAULT_TENANT);
      var a := Assignment(id, r, DEFAULT_TENANT, None);
      assert !Conflicts(db, a) && a !in db.assignments;
      assert a in CreateUserWithRole(db, Bypass, id, email, role).db.assignments;
      assert r !in seen;
      assert a !in CreateUserWithRole(db, s, id, email, role).db.assignments;
    } else {
      assert seen == all;
    }
  }

  // ── Isolation of writes ───────────────────────────────────

  // A statement for one tenant run under any other setting, or none, leaves the
  // strict tables as they were.
  lemma ForeignSettingWritesNothing(db: Db, setting: Option<Uuid>, tenant: Uuid, st: Statement)
    requires setting != Some(tenant)
    ensures var db' := After(db, Execute(db, Enforced(setting), tenant, st));
      db' == db.(memberships := db'.memberships)
    ensures st.NewProject? || st.NewRole? ==> Execute(db, Enforced(setting), tenant, st) == Rollback(PolicyViolation)
  {
    if st.DescribeRole? || st.DropRole? || st.Grant? || st.Ungrant? {
      NoOwnRolesNoWrite(db, setting, tenant, st);
    } else if st.Unassign? {
      var found := VisibleRoles(db, Enforced(setting), st.role);
      assert forall a | a in db.assignments && a.tenant == tenant :: !Permits(Enforced(setting), UserRoles, Some(a.tenant));
    }
  }

  lemma NoOwnRolesNoWrite(db: Db, setting: Option<Uuid>, tenant: Uuid, st: Statement)
    requires setting != Some(tenant) && (st.DescribeRole? || st.DropRole? || st.Grant? || st.Ungrant?)
    ensures After(db, Execute(db, Enforced(setting), tenant, st)) == db
  {
    assert OwnRoles(db, Enforced(setting), st.role, tenant) == {};
    hide OwnRoles;
    var db' := After(db, Execute(db, Enforced(setting), tenant, st));
    assert db'.rolePermissions == db.rolePermissions;
    assert db'.assignments == db.assignments;
    assert db'.roles == db.roles;
  }

  // ── Revoking what was assigned ────────────────────────────

  // A role name can be revoked in a tenant exactly when the tenant does not own a
  // role named like a template.
  lemma RevokeFailsExactlyOnSharedName(db: Db, user: Uuid, role: string, tenant: Uuid, project: Option<Uuid>)
    requires Inv(db)
    ensures RevokeRole(db, Enforced(Some(tenant)), user, role, tenant, project).Rollback?
      <==> (TenantRoleExists(db, role, tenant) && Templates(db, Bypass, role) != {})
  {
    var own, templates := OwnRoles(db, Bypass, role, tenant), Templates(db, Bypass, role);
    OwnAndTemplatesSurvive(db, tenant, role);
    if own != {} {
      var r :| r in own;
      OwnRoleIsUnique(db, Bypass, role, tenant, r);
    }
    if templates != {} {
      var t :| t in templates;
      TemplateIsUnique(db, Bypass, role, t);
    }
    if own != {} && templates != {} {
      var r :| r in own;
      var t :| t in templates;
      assert own + templates == {r, t} && r != t;
    } else {
      assert own + templates == own || own + templates == templates;
    }
  }

  // Where the user has no assignment in the scope, whether the subquery is evaluated
  // at all decides only whether an error is reported: the tables stay as they are.
  lemma UnheldRevokeChangesNothing(db: Db, s: Session, user: Uuid, role: string, tenant: Uuid, project: Option<Uuid>)
    requires forall a | a in db.assignments :: !(a.user == user && a.tenant == tenant && a.project == project)
    ensures After(db, RevokeRole(db, s, user, role, tenant, project)) == db
  {
  }

  // No assignment of the user in this scope carries the role name yet.
  ghost predicate Unassigned(db: Db, user: Uuid, role: string, tenant: Uuid, project: Option<Uuid>) {
    forall a | a in db.assignments && a.user == user && a.tenant == tenant && a.project == project ::
      a.role in db.roles && db.roles[a.role].name != role
  }

  // Assigning adds exactly one row, of the tenant's own role where there is one.
  lemma AssignAddsOneRow(db: Db, user: Uuid, role: string, tenant: Uuid, project: Option<Uuid>) returns (a: Assignment)
    requires Inv(db) && Unassigned(db, user, role, tenant, project)
    requires project.Some? ==> ProjectInTenant(db, project.value, tenant)
    requires RoleInTenant(db, role, tenant) && user in db.users && tenant in db.tenants
    ensures a.user == user && a.tenant == tenant && a.project == project && a !in db.assignments
    ensures a.role in VisibleRoles(db, Enforced(Some(tenant)), role)
    ensures TenantRoleExists(db, role, tenant) ==> db.roles[a.role].tenant == Some(tenant)
    ensures AssignRole(db, Enforced(Some(tenant)), user, role, tenant, project)
      == Commit(db.(assignments := db.assignments + {a}))
  {
    OwnAndTemplatesSurvive(db, tenant, role);
    a := Assignment(user, ResolveRole(db, Enforced(Some(tenant)), role, tenant).value, tenant, project);
    forall b | b in db.assignments
      ensures UniqueKey(b) != UniqueKey(a)
    {
      assert AssignmentOk(db, b);
    }
  }

  // Where revoking works it undoes an assignment that was not there before, and
  // the assigned role shows up in between.
  lemma RevokeUndoesAssign(db: Db, user: Uuid, role: string, tenant: Uuid, project: Option<Uuid>)
    requires Inv(db) && Unassigned(db, user, role, tenant, project)
    requires project.Some? ==> ProjectInTenant(db, project.value, tenant)
    requires RoleInTenant(db, role, tenant) && user in db.users && tenant in db.tenants
    requires !(TenantRoleExists(db, role, tenant) && Templates(db, Bypass, role) != {})
    ensures var s := Enforced(Some(tenant));
      var tx := AssignRole(db, s, user, role, tenant, project);
      && tx.Commit?
      && (exists a :: (a, role) in RolesScoped(tx.db, s, user, tenant, project))
      && RevokeRole(tx.db, s, user, role, tenant, project) == Commit(db)
  {
    hide Inv, AssignRole, ResolveRole, RoleInTenant, TenantRoleExists, ProjectInTenant, OwnRoles, Templates;
    var s := Enforced(Some(tenant));
    var a := AssignAddsOneRow(db, user, role, tenant, project);
    var db1 := db.(assignments := db.assignments + {a});
    assert (a, role) in RolesScoped(db1, s, user, tenant, project);
    assert VisibleRoles(db1, s, role) == VisibleRoles(db, s, role);
    RevokeFailsExactlyOnSharedName(db, user, role, tenant, project);
    var back := RevokeRole(db1, s, user, role, tenant, project);
    assert back.Commit?;
    forall b | b in db.assignments
      ensures b in back.db.assignments
    {
      if b.user == user && b.tenant == tenant && b.project == project {
        assert db.roles[b.role].name != role;
      }
    }
    assert back.db.assignments == db.assignments;
  }

  lemma SubsetSize<T>(a: set<T>, b: set<T>)
    requires a <= b
    ensures |a| <= |b|
  {
    if a != {} {
      var x :| x in a;
      SubsetSize(a - {x}, b - {x});
    }
  }
}
