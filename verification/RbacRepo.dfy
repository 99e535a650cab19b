// The repository as the service uses it: methods that update the tables in place,
// each one a transaction that either commits all of its writes or none, proved
// against the statements of module Rbac.
module RbacRepo {
  import opened Sql
  import opened Rbac
  import opened RbacInvariant
  import opened RbacRls
  import opened RbacEffects

  class Repo {
    var users: map<Uuid, string>
    var tenants: map<Uuid, TenantRow>
    var projects: map<Uuid, ProjectRow>
    var roles: map<RoleId, RoleRow>
    var permissions: map<PermId, string>
    var rolePermissions: set<(RoleId, PermId)>
    var assignments: set<Assignment>
    var memberships: map<(Uuid, Uuid), bool>

    ghost function State(): Db
      reads this
    {
      Db(users, tenants, projects, roles, permissions, rolePermissions, assignments, memberships)
    }

    ghost predicate Valid()
      reads this
    {
      Inv(State())
    }

    // Starts from any consistent database.
    constructor (db: Db)
      requires Inv(db)
      ensures Valid() && State() == db
    {
      users, tenants, projects, roles := db.users, db.tenants, db.projects, db.roles;
      permissions, rolePermissions := db.permissions, db.rolePermissions;
      assignments, memberships := db.assignments, db.memberships;
    }

    method RoleInTenant(name: string, tenant: Uuid) returns (found: bool)
      ensures found <==> Rbac.RoleInTenant(State(), name, tenant)
    {
      var hits := set r | r in roles && roles[r].name == name
        && Holds(Or(Equals(roles[r].tenant, Some(tenant)), IsNull(roles[r].tenant)));
      assert hits == OwnRoles(State(), Bypass, name, tenant) + Templates(State(), Bypass, name);
      found := hits != {};
    }

    method ProjectInTenant(project: Uuid, tenant: Uuid) returns (found: bool)
      ensures found <==> Rbac.ProjectInTenant(State(), project, tenant)
    {
      found := project in projects && projects[project].tenant == tenant;
    }

    // Resolves the role within the tenant, its own before a template.
    method Resolve(name: string, tenant: Uuid) returns (role: Option<RoleId>)
      requires Valid()
      ensures role == ResolveRole(State(), Enforced(Some(tenant)), name, tenant)
    {
      hide Inv;
      ghost var s := Enforced(Some(tenant));
      var own := set r | r in roles && roles[r].name == name && roles[r].tenant == Some(tenant);
      assert own == OwnRoles(State(), s, name, tenant);
      if own != {} {
        var r :| r in own;
        OwnRoleIsUnique(State(), s, name, tenant, r);
        return Some(r);
      }
      var templates := set r | r in roles && roles[r].name == name && roles[r].tenant == None;
      assert templates == Templates(State(), s, name);
      if templates != {} {
        var r :| r in templates;
        TemplateIsUnique(State(), s, name, r);
        return Some(r);
      }
      return None;
    }

    method AssignRole(user: Uuid, name: string, tenant: Uuid, project: Option<Uuid>) returns (ok: bool)
      requires Valid()
      requires project.Some? ==> Rbac.ProjectInTenant(State(), project.value, tenant)
      modifies this`assignments
      ensures Valid()
      ensures var tx := Rbac.AssignRole(old(State()), Enforced(Some(tenant)), user, name, tenant, project);
        ok == tx.Commit? && State() == After(old(State()), tx)
    {
      hide Inv;
      AssignRoleKeepsInvariant(State(), Enforced(Some(tenant)), user, name, tenant, project);
      var role := Resolve(name, tenant);
      if role.None? {
        return true;
      }
      ResolvedRoleExists(State(), name, tenant);
      var row := Assignment(user, role.value, tenant, project);
      if exists b | b in assignments :: UniqueKey(b) == UniqueKey(row) {
        return true;
      }
      if user !in users || tenant !in tenants {
        return false;
      }
      assignments := assignments + {row};
      return true;
    }

    // The subquery by name alone: an error on two rows, nothing on none.
    method RevokeRole(user: Uuid, name: string, tenant: Uuid, project: Option<Uuid>) returns (ok: bool)
      requires Valid()
      modifies this`assignments
      ensures Valid()
      ensures var tx := Rbac.RevokeRole(old(State()), Enforced(Some(tenant)), user, name, tenant, project);
        ok == tx.Commit? && State() == After(old(State()), tx)
    {
      hide Inv;
      ghost var db := State();
      RevokeRoleKeepsInvariant(db, Enforced(Some(tenant)), user, name, tenant, project);
      var found := set r | r in roles && Permits(Enforced(Some(tenant)), Roles, roles[r].tenant) && roles[r].name == name;
      assert found == VisibleRoles(db, Enforced(Some(tenant)), name);
      if |found| > 1 {
        return false;
      }
      assignments := set a | a in assignments
        && !(a.user == user && a.role in found && a.tenant == tenant && a.project == project);
      assert assignments == Rbac.RevokeRole(db, Enforced(Some(tenant)), user, name, tenant, project).db.assignments;
      return true;
    }

    method CreateRole(id: RoleId, name: string, description: string, tenant: Uuid) returns (ok: bool)
      requires Valid() && !IsBuiltinRole(name)
      modifies this`roles
      ensures Valid()
      ensures var tx := Rbac.CreateRole(old(State()), Enforced(Some(tenant)), id, name, description, tenant);
        ok == tx.Commit? && State() == After(old(State()), tx)
    {
      hide Inv;
      CreateRoleKeepsInvariant(State(), Enforced(Some(tenant)), id, name, description, tenant);
      if id in roles || tenant !in tenants || exists r | r in roles :: roles[r].tenant == Some(tenant) && roles[r].name == name {
        return false;
      }
      roles := roles[id := RoleRow(name, description, Some(tenant))];
      return true;
    }

    // Removes the rows that refer to the role before the role itself.
    method DeleteRole(name: string, tenant: Uuid)
      requires Valid()
      modifies this`roles, this`assignments, this`rolePermissions
      ensures Valid()
      ensures State() == After(old(State()), Rbac.DeleteRole(old(State()), Enforced(Some(tenant)), name, tenant))
    {
      hide Inv, OwnRoles, AssignmentsWithout, GrantsWithout;
      ghost var db := State();
      DeleteRoleKeepsInvariant(db, Enforced(Some(tenant)), name, tenant);
      var gone := set r | r in roles && roles[r].name == name && roles[r].tenant == Some(tenant);
      OwnRolesSeen(db, name, tenant);
      assert gone == OwnRoles(db, Enforced(Some(tenant)), name, tenant);
      assignments := AssignmentsWithout(assignments, gone);
      rolePermissions := GrantsWithout(rolePermissions, gone);
      roles := roles - gone;
    }

    method GrantPermission(role: string, permission: string, tenant: Uuid)
      requires Valid()
      modifies this`rolePermissions
      ensures Valid()
      ensures State() == After(old(State()), Rbac.GrantPermission(old(State()), Enforced(Some(tenant)), role, permission, tenant))
    {
      hide Inv;
      ghost var db := State();
      GrantPermissionKeepsInvariant(db, Enforced(Some(tenant)), role, permission, tenant);
      var granted := set r, p | r in roles && roles[r].name == role && roles[r].tenant == Some(tenant)
        && p in permissions && permissions[p] == permission :: (r, p);
      rolePermissions := rolePermissions + granted;
      assert rolePermissions == After(db, Rbac.GrantPermission(db, Enforced(Some(tenant)), role, permission, tenant)).rolePermissions;
    }

    method AddMember(user: Uuid, tenant: Uuid) returns (ok: bool)
      requires Valid()
      modifies this`memberships
      ensures Valid()
      ensures var tx := Rbac.AddMember(old(State()), Bypass, user, tenant);
        ok == tx.Commit? && State() == After(old(State()), tx)
    {
      hide Inv;
      MembershipKeepsInvariant(State(), Bypass, user, tenant);
      if (user, tenant) in memberships {
        return true;
      }
      if user !in users || tenant !in tenants {
        return false;
      }
      memberships := memberships[(user, tenant) := true];
      return true;
    }

    // Three inserts in one transaction; a failure takes back the ones before it.
    method CreateTenantWithAdmin(id: RandomUuid, slug: string, name: string, creator: Uuid) returns (ok: bool)
      requires Valid()
      modifies this
      ensures Valid()
      ensures var tx := Rbac.CreateTenantWithAdmin(old(State()), id, slug, name, creator);
        ok == tx.Commit? && State() == After(old(State()), tx)
    {
      hide Inv;
      hide Rbac.AddMember, FirstAdminRows, Rbac.CreateTenantWithAdmin;
      ghost var db := State();
      NewTenantSteps(db, id, slug, name, creator);
      CreateTenantKeepsInvariant(db, id, slug, name, creator);
      if id in tenants || exists t | t in tenants :: tenants[t].slug == slug {
        return false;
      }
      var before := tenants;
      NewTenantIsIndependent(db, id, TenantRow(slug, name, true));
      tenants := tenants[id := TenantRow(slug, name, true)];
      NewMemberOutcome(db, State(), creator, id);
      ok := AddMember(creator, id);
      if !ok {
        tenants := before;
        return;
      }
      InsertFirstAdmin(creator, id);
    }

    method InsertFirstAdmin(creator: Uuid, tenant: Uuid)
      modifies this`assignments
      ensures State() == old(State().(assignments := State().assignments + FirstAdminRows(State(), creator, tenant)))
    {
      var admins := set r | r in roles && roles[r].name == "admin" && roles[r].tenant == None;
      assert admins == Templates(State(), Bypass, "admin");
      var rows := set r | r in admins
        && !(exists b | b in assignments :: UniqueKey(b) == UniqueKey(Assignment(creator, r, tenant, None)))
          :: Assignment(creator, r, tenant, None);
      assert rows == FirstAdminRows(State(), creator, tenant);
      assignments := assignments + rows;
    }

    // The bulk handler: one transaction per user, going on after failures.
    method AssignRoleBulk(targets: seq<Option<Uuid>>, name: string, tenant: Uuid, project: Option<Uuid>)
      returns (admitted: bool, done: nat, failed: seq<Option<Uuid>>)
      requires Valid()
      modifies this`assignments
      ensures Valid()
      ensures admitted <==> old(Rbac.RoleInTenant(State(), name, tenant)
        && (project.Some? ==> Rbac.ProjectInTenant(State(), project.value, tenant)))
      ensures !admitted ==> State() == old(State()) && done == 0 && failed == []
      ensures admitted ==> done + |failed| == |targets|
      ensures admitted ==> failed == BulkFailures(old(State()), targets, tenant)
      ensures admitted ==> State() == old(State()).(assignments := assignments)
      ensures admitted ==> forall a | a in assignments ::
        a in old(assignments) || IsBulkRow(old(State()), a, targets, name, tenant, project)
      ensures admitted ==> old(assignments) <= assignments
      ensures admitted ==> forall u | Some(u) in targets && u in users && tenant in tenants :: Holding(State(), u, name, tenant, project)
    {
      hide Inv;
      hide Rbac.AssignRole, ResolveRole;
      done, failed := 0, [];
      admitted := RoleInTenant(name, tenant);
      if admitted && project.Some? {
        admitted := ProjectInTenant(project.value, tenant);
      }
      if !admitted {
        return;
      }
      ghost var db := State();
      for i := 0 to |targets|
        invariant Valid() && State() == db.(assignments := assignments)
        invariant db.assignments <= assignments
        invariant done + |failed| == i
        invariant failed == BulkFailures(db, targets[..i], tenant)
        invariant forall a | a in assignments :: a in db.assignments || IsBulkRow(db, a, targets, name, tenant, project)
        invariant forall j | 0 <= j < i && targets[j].Some? && targets[j].value in db.users && tenant in db.tenants ::
          Holding(State(), targets[j].value, name, tenant, project)
      {
        assert targets[..i + 1][..i] == targets[..i];
        ghost var db1 := State();
        if targets[i].None? {
          failed := failed + [targets[i]];
        } else {
          var ok := AssignRole(targets[i].value, name, tenant, project);
          AssignOutcome(db1, targets[i].value, name, tenant, project);
          ResolutionIgnoresAssignments(db, db1, name, tenant);
          ResolutionIgnoresAssignments(db, State(), name, tenant);
          if ok {
            done := done + 1;
          } else {
            failed := failed + [targets[i]];
          }
        }
      }
      assert targets[..|targets|] == targets;
    }
  }

  // The transaction as its three inserts.
  lemma NewTenantSteps(db: Db, id: RandomUuid, slug: string, name: string, creator: Uuid)
    requires Inv(db)
    ensures var tx := Rbac.CreateTenantWithAdmin(db, id, slug, name, creator);
            var db1 := db.(tenants := db.tenants[id := TenantRow(slug, name, true)]);
            var joined := Rbac.AddMember(db1, Bypass, creator, id);
            if id in db.tenants || exists t | t in db.tenants :: db.tenants[t].slug == slug then tx.Rollback?
            else if joined.Rollback? then tx.Rollback?
            else tx == Commit(joined.db.(assignments := joined.db.assignments + FirstAdminRows(joined.db, creator, id)))
  {
    hide FirstAdminRows;
  }

  lemma OwnRolesSeen(db: Db, name: string, tenant: Uuid)
    ensures OwnRoles(db, Enforced(Some(tenant)), name, tenant)
         == set r | r in db.roles && db.roles[r].name == name && db.roles[r].tenant == Some(tenant)
  {
  }

  lemma ResolvedRoleExists(db: Db, name: string, tenant: Uuid)
    ensures var r := ResolveRole(db, Enforced(Some(tenant)), name, tenant);
      r.Some? ==> r.value in VisibleRoles(db, Enforced(Some(tenant)), name)
  {
  }

  // A tenant that was not there before has no members: enrolling its creator
  // fails only for an unknown user.
  lemma NewMemberOutcome(db: Db, db': Db, user: Uuid, tenant: Uuid)
    requires Inv(db) && tenant !in db.tenants
    requires db'.memberships == db.memberships && db'.users == db.users && tenant in db'.tenants
    ensures Rbac.AddMember(db', Bypass, user, tenant).Commit? <==> user in db.users
  {
  }

  // ── What the bulk handler achieves ────────────────────────

  // A target fails when it does not parse or names nobody.
  ghost function BulkFailures(db: Db, targets: seq<Option<Uuid>>, tenant: Uuid): seq<Option<Uuid>> {
    if targets == [] then []
    else
      var rest := BulkFailures(db, targets[..|targets| - 1], tenant);
      var last := targets[|targets| - 1];
      if last.Some? && last.value in db.users && tenant in db.tenants then rest else rest + [last]
  }

  // A target fails as often as it was named if it is no known user, and never else.
  lemma {:induction false} FailuresAreTheUnknown(db: Db, targets: seq<Option<Uuid>>, tenant: Uuid, target: Option<Uuid>)
    requires tenant in db.tenants
    ensures multiset(BulkFailures(db, targets, tenant))[target] ==
            if target.Some? && target.value in db.users then 0 else multiset(targets)[target]
    decreases |targets|
  {
    if targets != [] {
      var first, last := targets[..|targets| - 1], targets[|targets| - 1];
      FailuresAreTheUnknown(db, first, tenant, target);
      assert targets == first + [last];
    }
  }

  ghost predicate IsBulkRow(
    db: Db, a: Assignment, targets: seq<Option<Uuid>>, name: string, tenant: Uuid, project: Option<Uuid>)
  {
    && Some(a.user) in targets && a.tenant == tenant && a.project == project
    && ResolveRole(db, Enforced(Some(tenant)), name, tenant) == Some(a.role)
  }

  // The user holds the role the name resolves to, in this very scope.
  ghost predicate Holding(db: Db, user: Uuid, name: string, tenant: Uuid, project: Option<Uuid>) {
    var r := ResolveRole(db, Enforced(Some(tenant)), name, tenant);
    r.Some? && Assignment(user, r.value, tenant, project) in db.assignments
  }

  lemma ResolutionIgnoresAssignments(db: Db, db': Db, name: string, tenant: Uuid)
    requires db' == db.(assignments := db'.assignments)
    ensures ResolveRole(db', Enforced(Some(tenant)), name, tenant) == ResolveRole(db, Enforced(Some(tenant)), name, tenant)
  {
  }

  // After the guards, assigning commits exactly for a known user of a known
  // tenant, and then the user holds the role.
  lemma AssignOutcome(db: Db, user: Uuid, name: string, tenant: Uuid, project: Option<Uuid>)
    requires Inv(db) && Rbac.RoleInTenant(db, name, tenant)
    requires project.Some? ==> Rbac.ProjectInTenant(db, project.value, tenant)
    ensures var tx := Rbac.AssignRole(db, Enforced(Some(tenant)), user, name, tenant, project);
      && (tx.Commit? <==> user in db.users && tenant in db.tenants)
      && (tx.Commit? ==> Holding(tx.db, user, name, tenant, project))
      && (tx.Commit? ==> tx.db == db.(assignments := tx.db.assignments) && db.assignments <= tx.db.assignments)
      && (tx.Commit? ==> forall a | a in tx.db.assignments ::
        (a in db.assignments || IsBulkRow(db, a, [Some(user)], name, tenant, project)))
  {
    var s := Enforced(Some(tenant));
    RoleGuardMeansResolvable(db, name, tenant);
    AssignCommitsExactly(db, user, name, tenant, project);
    var r := ResolveRole(db, s, name, tenant).value;
    var row := Assignment(user, r, tenant, if project == Some(NIL_UUID) then None else project);
    assert row in db.assignments ==> AssignmentOk(db, row);
    var tx := Rbac.AssignRole(db, s, user, name, tenant, project);
    if tx.Commit? {
      AssignedRows(db, s, user, name, tenant, project);
      ResolutionIgnoresAssignments(db, tx.db, name, tenant);
    }
    hide Rbac.AssignRole, ResolveRole, Inv;
  }
}
