// Role administration and the cache. Granting a permission to a role, taking one
// away and deleting a role are not followed by an invalidation: exactly which
// cached answers they leave right, and stores in which they do not.
module PermissionLag {
  import opened Sql
  import opened Rbac
  import opened RbacInvariant
  import opened RbacRls
  import opened RbacEffects
  import opened PermissionCache
  import PermissionCoherence
  import RbacSystem

  // ── Where a permission comes from ─────────────────────────

  // Whether the query behind a key reads an assignment.
  predicate Reads(k: Key, a: Assignment) {
    && a.user == k.user
    && (k.tenant.Some? ==> a.tenant == k.tenant.value && (a.project == None || a.project == k.project))
  }

  function KeyRows(db: Db, k: Key): set<Assignment> {
    set a | a in db.assignments && Reads(k, a)
  }

  lemma ValueIsThrough(db: Db, k: Key)
    ensures Value(db, k) == PermissionsThrough(db, KeyRows(db, k))
  {
    if k.tenant.Some? {
      assert ScopedAssignments(db, Enforced(k.tenant), k.user, k.tenant.value, k.project) == KeyRows(db, k);
    } else {
      assert Value(db, k) == PermissionsAnywhere(db, k.user);
    }
  }

  ghost predicate Carries(db: Db, role: RoleId, permission: string) {
    exists p | p in db.permissions && db.permissions[p] == permission :: (role, p) in db.rolePermissions
  }

  // Through one of these roles.
  ghost predicate Through(db: Db, k: Key, roles: set<RoleId>, permission: string) {
    exists a | a in KeyRows(db, k) && a.role in roles :: Carries(db, a.role, permission)
  }

  // Through any other role.
  ghost predicate Besides(db: Db, k: Key, roles: set<RoleId>, permission: string) {
    exists a | a in KeyRows(db, k) && a.role !in roles :: Carries(db, a.role, permission)
  }

  lemma ValueComesFrom(db: Db, k: Key, roles: set<RoleId>, permission: string)
    ensures permission in Value(db, k) <==> Through(db, k, roles, permission) || Besides(db, k, roles, permission)
    ensures permission in Value(db, k) <==> exists a | a in KeyRows(db, k) :: Carries(db, a.role, permission)
  {
    ValueIsThrough(db, k);
    hide Value, KeyRows;
    if permission in Value(db, k) {
      var a, p :| a in KeyRows(db, k) && p in db.permissions && (a.role, p) in db.rolePermissions
        && db.permissions[p] == permission;
      assert Carries(db, a.role, permission);
    }
  }

  // ── The three handlers ────────────────────────────────────

  function Mine(db: Db, role: string, tenant: Uuid): set<RoleId> {
    OwnRoles(db, Bypass, role, tenant)
  }

  lemma GrantValue(db: Db, k: Key, tenant: Uuid, role: string, permission: string)
    ensures var after := After(db, Execute(db, Enforced(Some(tenant)), tenant, Grant(role, permission)));
            Value(after, k) == Value(db, k) +
              (if HoldsOne(KeyRows(db, k), Mine(db, role, tenant)) && PermissionExists(db, permission) then {permission} else {})
  {
    GrantReaches(db, tenant, role, permission, KeyRows(db, k));
    var after := After(db, Execute(db, Enforced(Some(tenant)), tenant, Grant(role, permission)));
    ValueIsThrough(db, k);
    ValueIsThrough(after, k);
    assert KeyRows(after, k) == KeyRows(db, k);
  }

  // Under the invariant the role and the permission are unique, so nothing fails.
  lemma UngrantValue(db: Db, k: Key, tenant: Uuid, role: string, permission: string, n: string)
    requires Inv(db)
    ensures var after := After(db, Execute(db, Enforced(Some(tenant)), tenant, Ungrant(role, permission)));
            n in Value(after, k) <==>
              if n == permission then Besides(db, k, Mine(db, role, tenant), n) else n in Value(db, k)
  {
    var after := After(db, Execute(db, Enforced(Some(tenant)), tenant, Ungrant(role, permission)));
    var mine := Mine(db, role, tenant);
    UngrantCarries(db, tenant, role, permission, n);
    ValueComesFrom(db, k, mine, n);
    ValueComesFrom(after, k, mine, n);
    hide Value, Carries, Mine, Inv, Execute;
    assert KeyRows(after, k) == KeyRows(db, k);
  }

  lemma UngrantCarries(db: Db, tenant: Uuid, role: string, permission: string, n: string)
    requires Inv(db)
    ensures var after := After(db, Execute(db, Enforced(Some(tenant)), tenant, Ungrant(role, permission)));
            && after == db.(rolePermissions := after.rolePermissions)
            && forall r :: Carries(after, r, n) <==> Carries(db, r, n) && !(r in Mine(db, role, tenant) && n == permission)
  {
    OwnAndTemplatesSurvive(db, tenant, role);
    UngrantCommits(db, tenant, role, permission);
    hide Inv, OwnRoles;
  }

  lemma UngrantCommits(db: Db, tenant: Uuid, role: string, permission: string)
    requires Inv(db)
    ensures RevokePermission(db, Enforced(Some(tenant)), role, permission, tenant).Commit?
  {
    OwnRolesAtMostOne(db, Enforced(Some(tenant)), role, tenant);
    PermissionIsUnique(db, permission);
  }

  lemma DropValue(db: Db, k: Key, tenant: Uuid, role: string, n: string)
    ensures var after := After(db, Execute(db, Enforced(Some(tenant)), tenant, DropRole(role)));
            n in Value(after, k) <==> Besides(db, k, Mine(db, role, tenant), n)
  {
    var after := After(db, Execute(db, Enforced(Some(tenant)), tenant, DropRole(role)));
    var mine := Mine(db, role, tenant);
    OwnAndTemplatesSurvive(db, tenant, role);
    ValueComesFrom(after, k, mine, n);
    hide Value, OwnRoles;
    assert forall a :: a in KeyRows(after, k) <==> a in KeyRows(db, k) && a.role !in mine;
    forall r | r !in mine
      ensures Carries(after, r, n) <==> Carries(db, r, n)
    {
    }
  }

  // ── Exactly which entries stay right ──────────────────────

  // The statement as the cache's machine sees it.
  ghost function Administer(s: Sys, tenant: Uuid, st: Statement): Sys {
    Step(s, Event.Statement(After(s.db, Execute(s.db, Enforced(Some(tenant)), tenant, st))))
  }

  ghost predicate Right(s: Sys, k: Key)
    requires k in s.cache
  {
    s.cache[k].value == Value(s.db, k)
  }

  // Granting leaves an entry right exactly when its user does not hold the role
  // where the token looks, there is no such permission, or the user had it anyway.
  lemma GrantKeepsEntryExactly(s: Sys, k: Key, tenant: Uuid, role: string, permission: string)
    requires Live(s, k) && Right(s, k)
    ensures var s' := Administer(s, tenant, Grant(role, permission));
            && Live(s', k)
            && (Right(s', k) <==>
                  (HoldsOne(KeyRows(s.db, k), Mine(s.db, role, tenant)) && PermissionExists(s.db, permission) ==>
                     permission in s.cache[k].value))
  {
    hide Value, Execute, Mine, HoldsOne, KeyRows;
    GrantValue(s.db, k, tenant, role, permission);
  }

  // Taking a permission from a role leaves an entry right exactly when its user
  // did not have the permission through that role alone.
  lemma UngrantKeepsEntryExactly(s: Sys, k: Key, tenant: Uuid, role: string, permission: string)
    requires Inv(s.db) && Live(s, k) && Right(s, k)
    ensures var s' := Administer(s, tenant, Ungrant(role, permission));
            && Live(s', k)
            && (Right(s', k) <==>
                  (Through(s.db, k, Mine(s.db, role, tenant), permission) ==>
                     Besides(s.db, k, Mine(s.db, role, tenant), permission)))
  {
    hide Value, Execute, Mine, Through, Besides, Inv;
    var s' := Administer(s, tenant, Ungrant(role, permission));
    ValueComesFrom(s.db, k, Mine(s.db, role, tenant), permission);
    forall n
      ensures n in Value(s'.db, k) <==>
                if n == permission then Besides(s.db, k, Mine(s.db, role, tenant), n) else n in Value(s.db, k)
    {
      UngrantValue(s.db, k, tenant, role, permission, n);
    }
  }

  // Deleting a role leaves an entry right exactly when the role was the user's
  // only source of no permission.
  lemma DropKeepsEntryExactly(s: Sys, k: Key, tenant: Uuid, role: string)
    requires Live(s, k) && Right(s, k)
    ensures var s' := Administer(s, tenant, DropRole(role));
            && Live(s', k)
            && (Right(s', k) <==> forall n ::
                  Through(s.db, k, Mine(s.db, role, tenant), n) ==> Besides(s.db, k, Mine(s.db, role, tenant), n))
  {
    hide Value, Execute, Mine, Through, Besides;
    var s' := Administer(s, tenant, DropRole(role));
    forall n
      ensures n in Value(s'.db, k) <==> Besides(s.db, k, Mine(s.db, role, tenant), n)
      ensures n in Value(s.db, k) <==>
                Through(s.db, k, Mine(s.db, role, tenant), n) || Besides(s.db, k, Mine(s.db, role, tenant), n)
    {
      DropValue(s.db, k, tenant, role, n);
      ValueComesFrom(s.db, k, Mine(s.db, role, tenant), n);
    }
  }

  // ── Everything else stays right ───────────────────────────

  // No administrative statement of one tenant touches an entry of another's.
  lemma OtherTenantsEntriesKept(db: Db, tenant: Uuid, st: Statement, k: Key)
    requires Inv(db) && Guarded(db, tenant, st) && k.tenant.Some? && k.tenant != Some(tenant)
    ensures Value(After(db, Execute(db, Enforced(Some(tenant)), tenant, st)), k) == Value(db, k)
  {
    hide Execute, Inv, Guarded, PermissionsScoped;
    var after := After(db, Execute(db, Enforced(Some(tenant)), tenant, st));
    StatementKeepsInvariant(db, Enforced(Some(tenant)), tenant, st);
    RbacSystem.StatementLeavesOthersAlone(db, Enforced(Some(tenant)), tenant, st, k.tenant.value);
    RbacSystem.ViewDeterminesAccess(db, after, k.tenant.value, Enforced(k.tenant), k.user, k.project, 0);
  }

  // Nor do the statements that change no grant and no assignment, whatever the key.
  lemma OtherStatementsKeepEntries(db: Db, tenant: Uuid, st: Statement, k: Key)
    requires st.NewRole? || st.DescribeRole? || st.NewProject? || st.Join? || st.Leave?
    ensures Value(After(db, Execute(db, Enforced(Some(tenant)), tenant, st)), k) == Value(db, k)
  {
    var after := After(db, Execute(db, Enforced(Some(tenant)), tenant, st));
    assert after.assignments == db.assignments && after.rolePermissions == db.rolePermissions
        && after.permissions == db.permissions;
    SameTablesSameValue(db, after, k);
  }

  lemma SameTablesSameValue(db: Db, after: Db, k: Key)
    requires after.assignments == db.assignments && after.rolePermissions == db.rolePermissions
    requires after.permissions == db.permissions
    ensures Value(after, k) == Value(db, k)
  {
    if k.tenant.Some? {
      assert ScopedAssignments(after, Enforced(k.tenant), k.user, k.tenant.value, k.project)
          == ScopedAssignments(db, Enforced(k.tenant), k.user, k.tenant.value, k.project);
    }
  }

  // ── What a role change does to a value ────────────────────

  // The rows a revocation removes.
  predicate Dropped(db: Db, r: Request, a: Assignment) {
    && a.user == r.user && a.tenant == r.tenant && a.project == r.project
    && a.role in VisibleRoles(db, Enforced(Some(r.tenant)), r.role)
  }

  ghost predicate LeftWith(db: Db, r: Request, k: Key, permission: string) {
    exists a | a in KeyRows(db, k) && !Dropped(db, r, a) :: Carries(db, a.role, permission)
  }

  // What an assignment brings to this key.
  ghost predicate Brings(db: Db, r: Request, k: Key, permission: string) {
    var role := ResolveRole(db, Enforced(Some(r.tenant)), r.role, r.tenant);
    role.Some? && Reads(k, Assignment(r.user, role.value, r.tenant, r.project)) && Carries(db, role.value, permission)
  }

  lemma RevokeValue(db: Db, r: Request, k: Key, n: string)
    requires r.change.Revoke? && Outcome(db, r).Commit?
    ensures n in Value(Outcome(db, r).db, k) <==> LeftWith(db, r, k, n)
  {
    var after := Outcome(db, r).db;
    ValueComesFrom(after, k, {}, n);
    hide Value, VisibleRoles;
    assert forall a :: a in KeyRows(after, k) <==> a in KeyRows(db, k) && !Dropped(db, r, a);
    assert forall role :: Carries(after, role, n) <==> Carries(db, role, n);
  }

  lemma AssignValue(db: Db, r: Request, k: Key, n: string)
    requires Inv(db) && r.change.Assign? && Outcome(db, r).Commit?
    requires r.project.Some? ==> ProjectInTenant(db, r.project.value, r.tenant)
    ensures n in Value(Outcome(db, r).db, k) <==> n in Value(db, k) || Brings(db, r, k, n)
  {
    var after := Outcome(db, r).db;
    AssignedRows(db, Enforced(Some(r.tenant)), r.user, r.role, r.tenant, r.project);
    ValueComesFrom(db, k, {}, n);
    ValueComesFrom(after, k, {}, n);
    hide Value, ResolveRole, Outcome, Inv;
    assert forall role :: Carries(after, role, n) <==> Carries(db, role, n);
  }

  // A role change leaves the value of a key as it was exactly when it fails, takes
  // no permission the user has through no other row, or brings none that is new.
  ghost predicate ChangesNothing(db: Db, r: Request, k: Key) {
    || Outcome(db, r).Rollback?
    || (r.change.Revoke? && forall n | n in Value(db, k) :: LeftWith(db, r, k, n))
    || (r.change.Assign? && forall n | Brings(db, r, k, n) :: n in Value(db, k))
  }

  lemma RoleChangeKeepsValueExactly(db: Db, r: Request, k: Key)
    requires Inv(db) && (r.change.Assign? && r.project.Some? ==> ProjectInTenant(db, r.project.value, r.tenant))
    ensures Value(After(db, Outcome(db, r)), k) == Value(db, k) <==> ChangesNothing(db, r, k)
  {
    hide Value, Outcome, LeftWith, Brings, Inv;
    var tx := Outcome(db, r);
    if tx.Commit? && r.change.Revoke? {
      forall n
        ensures n in Value(tx.db, k) <==> LeftWith(db, r, k, n)
        ensures LeftWith(db, r, k, n) ==> n in Value(db, k)
      {
        RevokeValue(db, r, k, n);
        LeftIsHad(db, r, k, n);
      }
    } else if tx.Commit? {
      forall n
        ensures n in Value(tx.db, k) <==> n in Value(db, k) || Brings(db, r, k, n)
      {
        AssignValue(db, r, k, n);
      }
    }
  }

  lemma LeftIsHad(db: Db, r: Request, k: Key, n: string)
    ensures LeftWith(db, r, k, n) ==> n in Value(db, k)
  {
    ValueComesFrom(db, k, {}, n);
    hide Value;
  }

  // So for a fill that had read the right value and is overtaken by a whole change.
  lemma OvertakenFillExactly(s: Sys, v: nat, w: nat)
    requires Inv(s.db) && s.enabled && v in s.validations && s.validations[v].Queried?
    requires s.validations[v].value == Value(s.db, s.validations[v].key)
    requires w in s.writers && s.writers[w].progress.Requested? && Outcome(s.db, s.writers[w].request).Commit?
    requires var r := s.writers[w].request;
             && r.user == s.validations[v].key.user
             && (r.change.Assign? && r.project.Some? ==> ProjectInTenant(s.db, r.project.value, r.tenant))
    ensures var k := s.validations[v].key;
            var end := PermissionCoherence.Run(s,
              [Event.Commit(w), Scan(w, Matching(s, k.user), true), Delete(w), Fill(v)]);
            && w in end.writers && end.writers[w].progress.Ended? && Live(end, k)
            && (Right(end, k) <==> ChangesNothing(s.db, s.writers[w].request, k))
  {
    hide Value, Outcome, ChangesNothing, PermissionCoherence.Run, Inv;
    PermissionCoherence.OvertakenFill(s, v, w);
    RoleChangeKeepsValueExactly(s.db, s.writers[w].request, s.validations[v].key);
  }

  // ── Inputs ────────────────────────────────────────────────

  // A grant to a role the user holds is not followed by an invalidation: the next
  // validation still answers without it.
  lemma GrantGoesUnseen(s: Sys, id: nat, k: Key, tenant: Uuid, role: string, p: PermId, a: Assignment)
    requires k.tenant == Some(tenant) && s.enabled && id !in s.validations
    requires Live(s, k) && s.cache[k].value == Value(s.db, k)
    requires a in ScopedAssignments(s.db, Enforced(Some(tenant)), k.user, tenant, k.project)
    requires a.role in OwnRoles(s.db, Enforced(Some(tenant)), role, tenant)
    requires p in s.db.permissions && s.db.permissions[p] !in Value(s.db, k)
    ensures var name := s.db.permissions[p];
            var after := After(s.db, GrantPermission(s.db, Enforced(Some(tenant)), role, name, tenant));
            var answered := Step(Step(s, Event.Statement(after)), LookUp(id, k)).validations[id];
            name in Value(after, k) && answered.Answered? && name !in answered.value
  {
    var name := s.db.permissions[p];
    OwnAndTemplatesSurvive(s.db, tenant, role);
    assert a in KeyRows(s.db, k) && a.role in Mine(s.db, role, tenant);
    GrantValue(s.db, k, tenant, role, name);
    hide Value;
  }

  // One user of the default tenant, one role there that may read documents.
  function ExampleStore(): Db {
    Db(
      map[3 := "reader@example.org"],
      map[DEFAULT_TENANT := TenantRow("default", "Default Organization", true)],
      map[],
      map[1 := RoleRow("editor", "", Some(DEFAULT_TENANT))],
      map[1 := "doc:read", 2 := "doc:write"],
      {(1, 1)},
      {Assignment(3, 1, DEFAULT_TENANT, None)},
      map[(3, DEFAULT_TENANT) := true])
  }

  const EXAMPLE_KEY := Key(Some(DEFAULT_TENANT), None, 3)

  lemma ExampleStoreIsConsistent()
    ensures Inv(ExampleStore())
    ensures KeyRows(ExampleStore(), EXAMPLE_KEY) == {Assignment(3, 1, DEFAULT_TENANT, None)}
    ensures Mine(ExampleStore(), "editor", DEFAULT_TENANT) == {1}
    ensures Value(ExampleStore(), EXAMPLE_KEY) == {"doc:read"}
  {
    var db, a := ExampleStore(), Assignment(3, 1, DEFAULT_TENANT, None);
    assert ScopedAssignments(db, Enforced(Some(DEFAULT_TENANT)), 3, DEFAULT_TENANT, None) == {a};
    forall n
      ensures n in Value(db, EXAMPLE_KEY) <==> n == "doc:read"
    {
      assert db.permissions[1] == "doc:read";
    }
  }

  // One validation on an empty server caches what the database says.
  lemma OneValidationIsRight(db: Db, k: Key)
    ensures var empty := Sys(0, db, true, map[], map[], map[]);
            var s := Step(Step(Step(empty, LookUp(0, k)), Query(0)), Fill(0));
            s.db == db && s.enabled && 1 !in s.validations && Live(s, k) && Right(s, k)
  {
    hide Value;
  }

  // The validation after a statement still answers with the entry.
  lemma NextAnswerIsTheEntry(s: Sys, id: nat, k: Key, tenant: Uuid, st: Statement)
    requires s.enabled && id !in s.validations && Live(s, k)
    ensures var s' := Step(Administer(s, tenant, st), LookUp(id, k));
            id in s'.validations && s'.validations[id].Answered? && s'.validations[id].value == s.cache[k].value
  {
    hide Execute;
  }

  // Each of the three handlers makes a right entry wrong in some store.
  lemma EachGoesUnseen(s: Sys, st: Statement)
    requires s.db == ExampleStore() && Live(s, EXAMPLE_KEY) && Right(s, EXAMPLE_KEY)
    requires st in {Grant("editor", "doc:write"), Ungrant("editor", "doc:read"), DropRole("editor")}
    ensures var s' := Administer(s, DEFAULT_TENANT, st);
            Inv(s.db) && Live(s', EXAMPLE_KEY) && !Right(s', EXAMPLE_KEY)
  {
    var k := EXAMPLE_KEY;
    ExampleStoreIsConsistent();
    ExampleSources();
    hide Value, Execute, Mine, Inv, Through, Besides, HoldsOne, PermissionExists, ExampleStore;
    GrantKeepsEntryExactly(s, k, DEFAULT_TENANT, "editor", "doc:write");
    UngrantKeepsEntryExactly(s, k, DEFAULT_TENANT, "editor", "doc:read");
    DropKeepsEntryExactly(s, k, DEFAULT_TENANT, "editor");
  }

  lemma ExampleSources()
    ensures var db, mine := ExampleStore(), Mine(ExampleStore(), "editor", DEFAULT_TENANT);
            && HoldsOne(KeyRows(db, EXAMPLE_KEY), mine) && PermissionExists(db, "doc:write")
            && Through(db, EXAMPLE_KEY, mine, "doc:read") && !Besides(db, EXAMPLE_KEY, mine, "doc:read")
  {
    ExampleStoreIsConsistent();
    var db, a := ExampleStore(), Assignment(3, 1, DEFAULT_TENANT, None);
    assert a in KeyRows(db, EXAMPLE_KEY) && a.role in Mine(db, "editor", DEFAULT_TENANT);
    assert db.permissions[1] == "doc:read" && db.permissions[2] == "doc:write";
    assert Carries(db, 1, "doc:read");
  }

  // A revocation that overtakes a fill, from a server that has just started: the
  // validation misses and reads, the change commits and drops every entry, the fill
  // stores what it had read, and the revoked permission is answered again.
  lemma RevocationOvertakesAFill()
    ensures var request := Request(Revoke, 3, "editor", DEFAULT_TENANT, None);
            var start := Sys(0, ExampleStore(), true, map[], map[], map[]);
            var pending := PermissionCoherence.Run(start, [LookUp(0, EXAMPLE_KEY), Query(0), Ask(0, request)]);
            var end := PermissionCoherence.Run(pending,
              [Event.Commit(0), Scan(0, Matching(pending, 3), true), Delete(0), Fill(0)]);
            && Inv(start.db) && pending.db == start.db && Value(start.db, EXAMPLE_KEY) == {"doc:read"}
            && 0 in end.writers && end.writers[0].progress.Ended?
            && Live(end, EXAMPLE_KEY) && end.cache[EXAMPLE_KEY].value == {"doc:read"} && Value(end.db, EXAMPLE_KEY) == {}
  {
    var request := Request(Revoke, 3, "editor", DEFAULT_TENANT, None);
    var start := Sys(0, ExampleStore(), true, map[], map[], map[]);
    ExampleStoreIsConsistent();
    RevokedExample();
    PendingAfterThree(ExampleStore(), EXAMPLE_KEY, request);
    var pending := PermissionCoherence.Run(start, [LookUp(0, EXAMPLE_KEY), Query(0), Ask(0, request)]);
    hide Value, Outcome, ExampleStore, PermissionCoherence.Run, Inv;
    PermissionCoherence.OvertakenFill(pending, 0, 0);
  }

  lemma PendingAfterThree(db: Db, k: Key, request: Request)
    ensures var start := Sys(0, db, true, map[], map[], map[]);
            PermissionCoherence.Run(start, [LookUp(0, k), Query(0), Ask(0, request)])
            == Sys(0, db, true, map[], map[0 := Queried(k, Value(db, k), 0)], map[0 := Writer(request, Requested)])
  {
    hide Value;
    var start := Sys(0, db, true, map[], map[], map[]);
    var events := [LookUp(0, k), Query(0), Ask(0, request)];
    var s1 := Step(start, events[0]);
    assert s1 == start.(validations := map[0 := Missed(k)]);
    var s2 := Step(s1, events[1]);
    assert s2 == start.(validations := map[0 := Queried(k, Value(db, k), 0)]);
    var s3 := Step(s2, events[2]);
    assert s3 == s2.(writers := map[0 := Writer(request, Requested)]);
    hide Step;
    assert events[1..][1..] == events[2..] && events[2..][1..] == [];
    assert PermissionCoherence.Run(s2, events[2..]) == s3;
    assert PermissionCoherence.Run(s1, events[1..]) == s3;
  }

  lemma RevokedExample()
    ensures var tx := Outcome(ExampleStore(), Request(Revoke, 3, "editor", DEFAULT_TENANT, None));
            tx.Commit? && Value(tx.db, EXAMPLE_KEY) == {}
  {
    var db := ExampleStore();
    assert VisibleRoles(db, Enforced(Some(DEFAULT_TENANT)), "editor") == {1};
    var tx := RevokeRole(db, Enforced(Some(DEFAULT_TENANT)), 3, "editor", DEFAULT_TENANT, None);
    assert tx.Commit? && Assignment(3, 1, DEFAULT_TENANT, None) !in tx.db.assignments;
    assert tx.db.assignments == {};
  }
}
