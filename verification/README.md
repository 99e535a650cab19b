# Verified model of the authorization service

The service keeps users, tenants, roles and sessions in PostgreSQL, mirrors a few
facts into Redis, and publishes domain events to a stream. What it promises rests
on single SQL statements and on the order in which handlers run them. This project
models each statement (or each `begin..commit` block) as one atomic step on shared
tables, each handler as a small machine whose steps interleave with every other
handler's, and time as one clock that never goes back. Its theorems speak of every
input, every reachable state or every run.

`dafny verify dfyconfig.toml` checks everything.

## How it is organised

| files | subject |
|---|---|
| `Sql` | nullable columns, three-valued comparison, the row filter of WHERE |
| `Rbac`, `RbacInvariant`, `RbacRls`, `RbacEffects`, `RbacSystem`, `RbacRequests`, `RbacRepo` | the tenant-scoped role store: statements and row-security policies, the referential invariant, agreement with and without row security, what each write achieves and when it commits, interleaved handlers and noninterference between tenants, what each request comes to, the repository object |
| `Migration` | the multi-tenant migration, statement by statement |
| `Outbox`, `OutboxDrain`, `Replica` | the transactional outbox, its relays, and consumers of the events |
| `RefreshTokens`, `RefreshFamilies`, `RefreshServer` | refresh-token rotation, reuse detection and the grace window |
| `PermissionCache`, `PermissionCoherence`, `PermissionLag`, `CacheKeys`, `Denylist`, `Cache` | the permission cache and how far it may lag, its keys, the two denylists, the cache client |
| `AuthorizationCode`, `AuthorizationServer` | authorization codes (RFC 6749, RFC 7636) |
| `Lockout`, `LockoutParallel` | failed-login counting, one attempt at a time and in parallel |
| `Base64`, `TotpSecret`, `TotpEncryptor` | the envelope of second-factor secrets |

Code that the service writes as pure expressions (policies, queries, `verify_pkce`,
`perms_key`, `decrypt`) is a function here. Code that changes things step by step
(repository writes, the relay loop, the scan-and-delete loop, `refresh`, the code
exchange, the migration) is a class or method, proved against the step functions
about which the lemmas speak.

## Modelling decisions

- Identifiers, digests and random tokens are opaque and fresh when drawn. Digest
  functions and authenticated encryption are parameters; what is assumed of them is
  written as a predicate (`TotpSecret.Sound`, `Authentic`, `KeysSeparate`) and
  required where it is used.
- Fields that only record history (issue order and origin of a refresh token, who
  claimed a code, when a cached value was read) are marked as such; no branch reads
  them.
- An event the service allows at any moment (another tenant's request, a crash, an
  eviction, a deletion) is an event of the machine, in any order.
- A cache entry set with a time to live answers until that time is over; SCAN is
  given only its documented guarantee, and less: keys that are overwritten during a
  scan need not be returned.

## What the proofs found

- `revoke_role` finds the role by name alone in a scalar subquery. Once evaluated, it
  fails exactly when the tenant owns a role named like a shared template
  (`RevokeFailsExactlyOnSharedName`). `admin` and `user` are reserved names but `viewer`
  is not: right after the migrations, revoking it fails in the default tenant exactly
  when a role of that name existed before them (`ViewerTemplateEffect`), and later it
  fails in any tenant that has created one.
- `create_user_with_role` picks the role by name without a tenant. It keeps the
  referential invariant exactly when no other tenant owns a visible role of that name
  (`CreateUserKeepsInvariantExactly`): always for `user`, but not for the `viewer` role
  the demo user is started with on an unrestricted connection, once another tenant has
  created a role of that name (`ForeignViewerIsAssigned`).
- `delete_user` takes no tenant. An administrator of any tenant may hard-delete any
  user, and the cascade then reaches every tenant that user is in; another tenant is
  left alone exactly when the user neither belongs to it nor holds a role there
  (`DeleteLeavesOthersAloneExactly`). Noninterference holds for all other handlers.
- `created_at` defaults to the start of the transaction, so a row can become visible
  behind one already published. The published rows stay a prefix of the outbox exactly
  when rows arrive in order of `created_at` (`InOrderIsExact`); a run in which they do not
  is `EarlierRowArrivesLate`.
- Revoking all of a user's refresh tokens, as a family wipe, a password change or a
  soft deletion does, does not by itself end the family. A live token can come back
  without a login exactly when some token is in its grace window or a refresh that had
  already read its row, or passed its checks, goes on to issue
  (`FamilyRevivesExactly`).
- Granting a permission to a role, taking one away and deleting a role are not followed
  by an invalidation. Each leaves a right cached answer right under an exact condition
  (`GrantKeepsEntryExactly`, `UngrantKeepsEntryExactly`, `DropKeepsEntryExactly`) that
  some store fails (`EachGoesUnseen`); the lag is less than the time to live and one
  fill (`BoundedStaleness`). Other tenants' entries and all other administrative
  statements are unaffected.
- A role change can overtake a fill: a validation that read its permissions before the
  commit and stores them after the invalidation leaves a live entry that is right
  exactly when the change did not touch its value (`OvertakenFill`, and in terms of
  roles `OvertakenFillExactly`); a revoked permission can be answered again (`RevocationOvertakesAFill`).
- Invalidation uses the user id as the request spells it. It reaches the user's entries
  exactly when that spelling is the canonical one (`InvalidationReachesExactly`); an
  accepted id without hyphens drops nothing (`PlainTextReachesNothing`).
- A stored challenge without a method is taken to be `S256`, while the comment on
  `verify_pkce` and section 4.3 of RFC 7636 say `plain`; a client relying on the default
  is served exactly when its challenge is its own digest (`OmittedMethodIsNotPlain`).
- `refresh` does not look at the expiry on the grace path: an expired token is still
  renewed exactly while it is in its grace window and its user exists
  (`ExpiredRenewsExactly`). Neither `refresh` nor the code exchange looks at
  `deleted_at`: a soft-deleted user's family comes back exactly as any revoked one
  (`FamilyRevivesExactly`, and `SoftDeletedFamilyRevives` shows a run to such a state), and a
  code is exchanged exactly as before the deletion (`SoftDeletedIsServedExactly`).
- A soft-deleted user keeps the email: nobody else can register with it until the user
  is deleted for good (`EmailIsFreedExactly`).
- Parallel login attempts pass the lock check together. With at most n in flight, a
  window of w holds at most (max - 1 + n) * (w / lockout + 1) failed verifications,
  the lockout shortened by the longest delay between taking the clock and writing the
  lock (`ParallelWindowBound`); one round of that is reached in no time
  (`RoundIsReached`), more than the sequential limit as soon as n is above one.

## Model

| member | source | states |
|---|---|---|
| RbacRls.FailClosedTightens | migrations/0013_rls_fail_closed.sql:13-16 | the fail-closed policy shows no row the first policy hid, agrees with it whenever a tenant is set, and shows only unowned rows when none is |
| RbacRls.PermitsExactly | migrations/0016_rls_reclass.sql:21-26 | with the policies enforced, rows of roles, assignments and projects are seen and written exactly when they are unowned or of the session's tenant, and rows of every other table always |
| RbacRls.OwnAndTemplatesSurvive | migrations/0013_rls_fail_closed.sql:13-16 | with the policies enforced for a tenant, lookups by name see exactly the tenant's own roles and the templates, the same as without enforcement |
| RbacRls.StatementKeepsInvariant | src/repo.rs:898-1082 | every administrative statement keeps the referential invariant, in every session, given only the checks the handlers make |
| RbacRls.StatementsAgree | src/repo.rs:690-698 | every statement but `revoke_role` has the same outcome and the same tables with the policies enforced for its tenant as with them bypassed |
| RbacRls.QueriesAgree | src/repo.rs:807-854 | in consistent states the scoped reads and the tenant listings return the same rows with and without row security |
| RbacRls.RevokeRoleAgreesExactly | src/repo.rs:926-948 | revoking a role agrees with and without row security if and only if at most one role in the whole store has the name, or the tenant itself already sees two |
| RbacRls.RegistrationAgreesExactly | src/repo.rs:336-374 | registration with its default-tenant setting writes the same rows as an unrestricted one exactly when no other tenant owns a role of that name, which holds for the reserved names |
| RbacRls.ForeignSettingWritesNothing | migrations/0013_rls_fail_closed.sql:13-16 | a session set to another tenant, or to none, cannot change this tenant's roles, assignments or projects |
| RbacRls.RevokeFailsExactlyOnSharedName | src/repo.rs:935-938 | revoking by name, its subquery evaluated, fails if and only if the tenant owns a role named like a template |
| RbacRls.UnheldRevokeChangesNothing | src/repo.rs:935-938 | for a user without an assignment in the scope the tables stay as they are, whether the subquery is evaluated, fails, or is never reached |
| RbacRls.AssignAddsOneRow | src/repo.rs:905-916 | assigning adds exactly one row, for the tenant's own role if there is one and else the template |
| RbacRls.RevokeUndoesAssign | src/repo.rs:926-948 | revoking what was just assigned restores the database |
| RbacInvariant.AssignRoleKeepsInvariant | src/repo.rs:898-924 | an assignment stays within its tenant, its role is usable there and no second row has its key |
| RbacInvariant.CreateRoleKeepsInvariant | src/repo.rs:969-981 | names stay unique per tenant and no tenant owns a reserved name |
| RbacInvariant.CreateProjectKeepsInvariant | src/repo.rs:653-666 | slugs stay unique per tenant and assignments keep their projects |
| RbacInvariant.MembershipKeepsInvariant | src/repo.rs:671-683 | enrolling and removing members keep the store consistent |
| RbacInvariant.CreateTenantKeepsInvariant | src/repo.rs:609-642 | the three inserts of a new tenant commit or fail together and keep the store consistent |
| RbacInvariant.CreateUserKeepsInvariantExactly | src/repo.rs:157-187 | creating a user with a role by name is consistent if and only if no other tenant owns a visible role of that name |
| RbacInvariant.ForeignViewerIsAssigned | src/main.rs:176-195 | from every consistent store in which another tenant may create a role named `viewer`, starting the demo user afterwards commits and breaks the invariant |
| RbacInvariant.RegistrationIsSafe | src/repo.rs:336-374 | the reserved role names and an enforced default-tenant session both make it consistent |
| RbacInvariant.OwnRoleIsUnique | migrations/0010_multitenant.sql:101-102 | at most one role of a tenant answers to a name, so lookups are determined |
| RbacEffects.GrantEffect | src/repo.rs:1051-1066 | granting adds that one permission to exactly the holders of the tenant's role, and nothing to anybody else |
| RbacEffects.ScopedReads | src/repo.rs:807-854 | a scope reads exactly the user's assignments in that tenant that name no project or the scope's own; a session set to another tenant, or to none, reads nothing |
| RbacEffects.ScopedRoleNames | src/repo.rs:807-828 | the scoped role names are those of exactly these assignments, but for roles of other tenants, which an enforced session does not show |
| RbacEffects.ScopedPermissionNames | src/repo.rs:831-854 | the scoped permissions are those granted to the roles of exactly these assignments |
| RbacEffects.ProjectsListed | src/repo.rs:717-727 | a tenant's projects are listed, all of them and no other, exactly in sessions that may read them |
| RbacEffects.AssignCommitsExactly | src/repo.rs:898-924 | assigning commits if and only if no role resolves, the row is already there, or user, tenant and project are known |
| RbacEffects.AssignmentReachesScope | src/repo.rs:898-924 | assigning a role brings its permissions to the scopes of the project named, to all of the tenant's if none is, and to no other |
| RbacEffects.RoleGuardMeansResolvable | src/repo.rs:866-874 | the guard on a role name passes if and only if the name resolves to the tenant's own role or a template |
| RbacEffects.ActiveMemberExactly | src/repo.rs:570-581 | an active member is one whose membership is there and active in a tenant that is there and active |
| RbacEffects.MembersListed | src/repo.rs:730-741 | the listing holds exactly the tenant's members, each with its status there |
| RbacEffects.UngrantUndoesGrant | src/repo.rs:1068-1082 | revoking a fresh grant restores the database |
| RbacEffects.CreateRoleShadows | src/repo.rs:969-981 | a new role takes its name over from a template in its own tenant and nowhere else |
| RbacEffects.CreateRoleCommitsExactly | migrations/0010_multitenant.sql:101-102 | creating a role commits if and only if the tenant has none of that name itself, whatever other tenants have; then it adds that row alone |
| RbacEffects.CreateProjectCommitsExactly | src/repo.rs:653-666 | creating a project commits if and only if the tenant has no project with that slug |
| RbacEffects.CreateTenantCommitsExactly | src/repo.rs:609-642 | creating a tenant commits if and only if the slug is free and the creator is known; every table but the three inserted into stays as it was |
| RbacEffects.CreateUserCommitsExactly | src/repo.rs:157-187 | creating a user commits if and only if id and email are free and, should any role of the name be seen, the default tenant is there and may be written; it adds the user and one row per role seen |
| RbacEffects.AddMemberCommitsExactly | src/repo.rs:671-683 | enrolling commits if and only if user and tenant are known or the membership is already there, which then stays as it is |
| RbacEffects.RemoveMemberTakesOne | src/repo.rs:745-754 | removing a member takes that membership and no other row |
| RbacEffects.DeleteUserTakesOne | src/repo.rs:227-247 | hard deletion takes the user's rows everywhere and nobody else's anywhere |
| RbacEffects.UpdateRoleTouchesOne | src/repo.rs:983-995 | a new description reaches only the tenant's role of that name |
| RbacEffects.DeleteUndoesCreate | src/repo.rs:997-1006 | deleting a role just created restores the database |
| RbacEffects.DeleteRoleEffect | src/repo.rs:997-1006 | deleting removes exactly the assignments of the tenant's role, cascades included, and the role is gone |
| RbacEffects.UpdateRoleEffect | src/repo.rs:983-995 | a new description changes nobody's access |
| RbacEffects.CreateTenantEffect | src/repo.rs:609-642 | the creator becomes an active member with the admin template in the new tenant and nothing else there |
| RbacEffects.RegisterEffect | src/repo.rs:358-365 | a registered user holds the `user` template in the default tenant and no role elsewhere |
| RbacEffects.MembershipEffect | src/repo.rs:570-581 | enrolling makes an active member unless a suspended membership exists; removing ends it |
| RbacEffects.CreateProjectEffect | src/repo.rs:653-666 | a new project is listed and usable in its tenant only |
| RbacSystem.EveryReachableStateIsConsistent | src/grpc.rs:149-192 | in every run, with other handlers between a check and its insert, the referential invariant holds |
| RbacRequests.CreateRoleHandled | src/grpc.rs:1410-1436 | a request for a role with an empty or reserved name changes nothing; any other comes down to the one insert |
| RbacRequests.UpdateRoleHandled | src/grpc.rs:1438-1460 | on its own the request changes what the update changes, refused or not |
| RbacRequests.DeleteRoleHandled | src/grpc.rs:1462-1487 | the same for deleting a role |
| RbacRequests.GrantHandled | src/grpc.rs:1635-1650 | the same for granting a permission |
| RbacRequests.UngrantHandled | src/grpc.rs:1652-1667 | the same for taking one away |
| RbacRequests.AssignHandled | src/grpc.rs:1513-1531 | nothing happens if the role name does not resolve in the tenant or the project is not the tenant's; else the one assignment |
| RbacRequests.UnassignHandled | src/grpc.rs:1560-1586 | the request changes what the delete changes, an unknown role name being none |
| RbacRequests.CreateProjectHandled | src/grpc.rs:951-972 | an empty slug or name is refused, else the one insert |
| RbacRequests.AddMemberHandled | src/grpc.rs:999-1018 | exactly the user with the address is enrolled, and nobody if there is none |
| RbacRequests.RemoveMemberHandled | src/grpc.rs:1021-1036 | the request removes that one membership |
| RbacRequests.PlatformHandled | src/grpc.rs:913-930 | a tenant without a slug or a name is refused; registration gives the role `user`, enrolment is in the default tenant |
| RbacRequests.RoleRequestsRefusedExactly | src/grpc.rs:179-192 | a request about a reserved role name, or about a role to be deleted or given or taken a permission that the tenant does not own, is over at its first step, whatever is created afterwards |
| RbacRequests.AssignmentRequestsRefusedExactly | src/grpc.rs:149-175 | giving a role is refused at once if and only if the tenant can use none of that name, taking one away if and only if no role has the name |
| RbacSystem.ViewDeterminesAccess | src/repo.rs:807-854 | a tenant's roles, grants, assignments, projects and members alone decide every scoped answer in it |
| RbacSystem.StatementLeavesOthersAlone | src/repo.rs:898-1082 | a statement of one tenant changes nothing another tenant sees, delete cascades included |
| RbacSystem.RunLeavesOthersAlone | src/grpc.rs:1410-1586 | the same over whole runs of interleaved handlers |
| RbacSystem.RunsOfOthersNeverConcern | src/grpc.rs:1410-1586 | any run of other tenants' role, member and project handlers qualifies |
| RbacSystem.DeleteLeavesOthersAloneExactly | src/grpc.rs:1058-1078 | hard-deleting a user, which any tenant's administrator may ask for, leaves a tenant's view as it was if and only if the user is no member of it and holds no role there |
| RbacSystem.Noninterference | src/grpc.rs:1410-1667 | whatever other tenants' role, member and project handlers do, every user's scoped roles and permissions here and every template's permissions stay the same; of user deletions only those of users outside this tenant are allowed in between, since `delete_user` of any tenant erases access here |
| RbacRepo.Repo.Resolve | src/repo.rs:911-914 | the imperative lookup is the tenant's own role, else the template |
| RbacRepo.Repo.AssignRole | src/repo.rs:898-924 | the transaction's new tables and its success are those of the statement |
| RbacRepo.Repo.RevokeRole | src/repo.rs:926-948 | the same for revoking, the error on two visible roles included |
| RbacRepo.Repo.CreateRole | src/repo.rs:969-981 | the same for creating a role, both uniqueness errors included |
| RbacRepo.Repo.DeleteRole | src/repo.rs:997-1006 | the same for deleting a role, removing dependent rows first |
| RbacRepo.Repo.GrantPermission | src/repo.rs:1051-1066 | the same for granting a permission |
| RbacRepo.Repo.AddMember | src/repo.rs:671-683 | the same for enrolling |
| RbacRepo.Repo.CreateTenantWithAdmin | src/repo.rs:609-642 | the same for the three-insert transaction: all of it, or nothing after a failed member insert |
| RbacRepo.Repo.AssignRoleBulk | src/grpc.rs:1533-1558 | nothing happens unless the guards pass; then exactly the unparsable and unknown targets fail, every other target holds the role, and no row but theirs is added |
| RbacRepo.FailuresAreTheUnknown | src/grpc.rs:1543-1554 | a target is reported failed as often as it was named if it is no known user, and else never |
| RbacRepo.AssignOutcome | src/grpc.rs:149-175 | after the guards an assignment commits exactly for a known user of a known tenant, who then holds the role |
| Migration.Schema.SeedPermissions | migrations/0010_multitenant.sql:61-68 | every new permission exists afterwards, old ones are untouched and names stay unique |
| Migration.BackfillMeans | migrations/0010_multitenant.sql:71-83 | afterwards no assignment, client, key or token is without a tenant, templates stay unowned and other roles have an owner, everybody is enrolled; whatever was set before is kept and no row is lost |
| Migration.BackfillIsIdempotent | migrations/0010_multitenant.sql:71-83 | a second backfill changes nothing |
| Migration.Migrate | migrations/0010_multitenant.sql:11-108 | from every database the old schema allows, no tightened constraint can fail, the result is the described database, and its only new permissions are the six seeded ones |
| Migration.DefaultRows | migrations/0010_multitenant.sql:40-45 | the one tenant and the one project are both called `default`, under their fixed ids |
| Migration.NamesMayRepeatAcrossTenants | migrations/0010_multitenant.sql:101-102 | the new indexes allow a name twice if and only if the owners differ |
| Migration.ViewerGetsTheReads | migrations/0015_demo_viewer.sql:5-18 | the template gets exactly the permissions whose names end in `:read`; no other role gains or loses one |
| Migration.ViewerReadsTenantProjectMember | migrations/0010_multitenant.sql:61-68 | of the six permissions seeded before it gets the three that read tenants, projects and members |
| Migration.MigrationEstablishesInvariant | migrations/0010_multitenant.sql:70-108 | the migrated database satisfies the referential invariant |
| Migration.MigrationPreservesAccess | migrations/0010_multitenant.sql:70-108 | exactly the old users are active members, of the default tenant only; the scoped roles and permissions there equal the old unscoped ones for every project, and are empty in every other tenant |
| Migration.OldRolesSurvive | src/repo.rs:807-828 | the scoped roles in the default tenant are the old roles |
| Migration.ViewerTemplateKeepsAccess | migrations/0015_demo_viewer.sql:5-18 | adding the read-only template changes nobody's permissions |
| Migration.ViewerTemplateEffect | migrations/0015_demo_viewer.sql:5-9 | straight after the migrations revoking `viewer` in the default tenant fails if and only if a role of that name existed before them |
| Outbox.PublishedIsAPrefix | src/relay.rs:24-37 | in runs whose rows arrive in order of `created_at`, with any number of relays, failing and stopping anywhere, the deduplicated published rows are a prefix of the outbox that only grows, and every marked row is in it |
| Outbox.DeliverExtendsPrefix | src/relay.rs:26-32 | a relay publishes a row already published or exactly the next one |
| Outbox.PendingKeepsOrder | src/repo.rs:376-384 | what a fetch returns is in order |
| Outbox.InitIsOk | src/repo.rs:376-384 | any ordered backlog with nothing published is a consistent start |
| OutboxDrain.DrainCompletes | src/relay.rs:24-37 | a relay left alone publishes and marks its whole batch and nothing else |
| OutboxDrain.PendingAfterMarks | src/repo.rs:386-392 | marking the first rows leaves the others pending in order |
| OutboxDrain.FaultFreePass | src/relay.rs:24-37 | the pass of one relay is a run of the interleaved machine |
| OutboxDrain.BrokenPassIsMadeUpFor | src/relay.rs:24-37 | after a pass broken off by an unacknowledged publish, stored or lost, or by a crash before the mark, the next pass leaves exactly what one without the fault would have |
| OutboxDrain.Pipe.Drain | src/relay.rs:24-37 | one pass publishes and marks the oldest hundred pending rows |
| OutboxDrain.Pipe.DrainTimes | src/relay.rs:14-22 | after some passes nothing is pending if and only if they cover the backlog at a hundred rows each |
| OutboxDrain.PassesCover | src/relay.rs:14-37 | over whole drains by relays taking turns, others holding batches or not, nothing stays pending if and only if the drains cover the backlog at a hundred rows each, and the oldest rows go first |
| OutboxDrain.LateInsertCanBreak | src/repo.rs:376-384 | an insert ordered before a row some relay has taken up leads to a gap |
| OutboxDrain.InOrderIsExact | src/repo.rs:376-384 | arriving in order is necessary and sufficient for the prefix property in every continuation |
| OutboxDrain.EarlierRowArrivesLate | src/repo.rs:376-384 | a run from a fresh outbox in which a row becomes visible behind a published one and the published rows are no prefix |
| Replica.EventMatchesWrite | src/repo.rs:227-258 | each transaction's event says exactly what its statements did, no-ops included |
| Replica.ChangeEffect | src/repo.rs:227-258 | a change touches its user alone: soft deletion hides the row and keeps the email, hard deletion removes it, restoring shows it again |
| Replica.ChangesKeepEmailsUnique | src/repo.rs:336-374 | no change that commits makes two users share an email, and a registration that commits overwrites nobody |
| Replica.EmailIsFreedExactly | src/repo.rs:227-258 | somebody else can register a deleted user's email if and only if the deletion was hard |
| Replica.InitIsConsistent | src/repo.rs:336-374 | an empty outbox over any users table is a consistent start |
| Replica.UserStore.CreateUserEvent | src/repo.rs:336-374 | a registration writes the user and its event or, on a duplicate, neither |
| Replica.UserStore.DeleteUserEvent | src/repo.rs:227-247 | soft and hard deletion change the table and append their event together |
| Replica.UserStore.RestoreUserEvent | src/repo.rs:250-258 | restoring does the same |
| Replica.ConsumersHoldAPastState | src/relay.rs:24-37 | a consumer of the published events holds the users table as it was after some transaction, and as it is once nothing is pending |
| Replica.ChangeReachesConsumers | src/relay.rs:24-37 | any change that succeeds on an empty outbox is recorded and, after one pass of a relay, is what consumers hold |
| RefreshTokens.ForestOnEveryRun | src/grpc.rs:645-699 | under every interleaving revocation time and successor are written at most once, a successor implies revocation and is a stored token issued from that very token |
| RefreshTokens.SuccessorsAreYounger | src/repo.rs:769-779 | following successors never comes back, goes to later issues and keeps user, tenant and project |
| RefreshTokens.Root | src/grpc.rs:690-697 | every token descends from one that a login issued, with the same user, tenant and project |
| RefreshTokens.ChainsStayInTheTree | src/repo.rs:769-779 | a token's successors have its root |
| RefreshTokens.RootsAreStable | src/grpc.rs:645-699 | a token's root never changes while it is stored |
| RefreshTokens.StoredTokensAreFresh | src/grpc.rs:100-133 | under every interleaving a token is stored unrevoked, expires one full lifetime after that moment, and has the binding of its login or of the row its refresh had read |
| RefreshTokens.LoginNeedsTheUser | src/repo.rs:522-542 | a user just created can log in; after a hard deletion a login stores nothing and none of the user's tokens is left |
| RefreshFamilies.ParallelRefreshesAllSucceed | src/grpc.rs:657-698 | in runs in which no logout, wipe, password change or deletion touches the family and every decision falls within the token's lifetime or its grace window: however many refreshes of one live token interleave, none is rejected, none wipes the family, and each returns a stored pair of the same binding |
| RefreshFamilies.DeadStaysDead | src/grpc.rs:657-680 | a family revoked for good, with no refresh under way that will issue, gets no new and no live token until a new login |
| RefreshFamilies.RevokingThenWaitingKills | src/repo.rs:439-445 | revoking everything and waiting out the window makes a family dead if and only if the user is gone or no refresh under way is then still going to issue |
| RefreshFamilies.FamilyRevivesExactly | src/grpc.rs:657-674 | from every state with all of a user's tokens revoked, refreshes under way included, the family can come back without a login if and only if a token is in its grace window, or the user exists and some refresh is past its checks or has read a row whose decision still proceeds |
| RefreshFamilies.SoftDeletedFamilyRevives | src/grpc.rs:657-674 | after a login, one renewal and a soft deletion every token is revoked and the family can come back |
| RefreshServer.Server.IssueTokens | src/repo.rs:522-542 | a pair is stored exactly for a user that exists |
| RefreshServer.Server.RotateRefreshToken | src/repo.rs:769-779 | the compare-and-set marks an unrevoked token only |
| RefreshServer.Server.Logout | src/repo.rs:756-764 | logging out revokes that one token if it was live |
| RefreshServer.Server.Refresh | src/grpc.rs:645-699 | one refresh alone leaves the tables and gives the answer of the interleaved machine's steps in a row |
| RefreshServer.AloneIsARun | src/grpc.rs:645-699 | those steps in a row are a run of the machine, to which its theorems apply |
| RefreshServer.LoginLastsItsLifetime | src/grpc.rs:681-698 | a login's token is renewed with the same binding if and only if it is presented within its lifetime |
| RefreshServer.RenewalLastsAFullLifetime | src/grpc.rs:690-697 | the successor of a token renewed now expires a full lifetime from now, whatever was left of its predecessor's |
| RefreshServer.RenewalCanBeRenewed | src/grpc.rs:645-699 | so presenting the successor is granted exactly up to that time and answered as expired after it |
| RefreshServer.LogoutEndsTheToken | src/grpc.rs:701-710 | logging out revokes that token alone; presenting it later is answered as reuse and takes the user's other live tokens |
| RefreshServer.AloneIssues | src/grpc.rs:681-698 | a proceeding refresh stores one successor with the presented token's binding and rotates the token unless it was in grace |
| RefreshServer.ExpiredRenewsExactly | src/grpc.rs:657-674 | an expired token is renewed if and only if it is in its grace window and its user exists |
| PermissionCache.BoundedStaleness | src/grpc.rs:805-829 | permissions answered at a time are what the database held for that token less than 60 s plus one fill before, under every interleaving |
| PermissionCache.RunIsExplained | src/cache.rs:53-68 | every entry and every pending value is some earlier database value, and entries expire in time |
| PermissionCache.EntryLastsAMinute | src/cache.rs:53-68 | a filled entry answers exactly for the next 60 s, other entries stay, and without a cache nothing is stored |
| PermissionCache.DisabledAlwaysMisses | src/cache.rs:53-55 | without a cache every look-up misses |
| PermissionCache.OneScanDropsTheUser | src/cache.rs:72-99 | a scan that returns all at once and its deletion leave no live entry of the user and everybody else's as they were |
| PermissionCache.TwoScansDropTheUser | src/cache.rs:72-99 | the same when the keys come in two replies |
| PermissionCache.CommitThenInvalidates | src/grpc.rs:1513-1531 | only a role change that committed goes on to invalidate |
| PermissionCoherence.OtherUsersKeepTheirValue | src/repo.rs:898-948 | assigning and revoking roles of one user changes no other user's permissions |
| PermissionCoherence.EmptyCacheIsCoherent | src/cache.rs:15-26 | a server that starts with an empty cache is coherent for every user |
| PermissionCoherence.StepKeepsCoherence | src/cache.rs:72-99 | as long as no commit overtakes a fill and no other statement changes what is cached or being filled for the user, every stale entry is one that a role change under way is still going to drop |
| PermissionCoherence.CommitKeepsCoherenceExactly | src/grpc.rs:1523-1528 | committing a role change keeps the cache coherent if and only if every value a fill of the user has read but not stored is still right afterwards |
| PermissionCoherence.CacheAgreesBetweenChanges | src/grpc.rs:1513-1586 | in runs in which no commit overtakes a fill of the user and no other statement changes what is cached or being filled for the user: whenever no change of the user's roles is between commit and end of invalidation, every answer from the cache equals the database |
| PermissionCoherence.OvertakenFill | src/grpc.rs:811-828 | a fill overtaken by a whole role change leaves a live entry that is right if and only if the change did not touch its value |
| PermissionLag.RoleChangeKeepsValueExactly | src/repo.rs:898-948 | assigning or revoking a role leaves a token's permissions as they were if and only if it fails, the revoked rows carried nothing the others do not, or the assigned role brings nothing new to that token |
| PermissionLag.OvertakenFillExactly | src/grpc.rs:1513-1586 | so a right fill overtaken by a whole role change ends right if and only if that holds of the change |
| PermissionLag.GrantKeepsEntryExactly | src/grpc.rs:1635-1650 | after a grant a right cached answer, for any tenant's or a tenantless token, is still right if and only if its user does not hold the role where the token looks, there is no such permission, or the user had it already |
| PermissionLag.UngrantKeepsEntryExactly | src/grpc.rs:1652-1667 | after taking a permission from a role it is still right if and only if the user did not have the permission through that role alone |
| PermissionLag.DropKeepsEntryExactly | src/grpc.rs:1462-1487 | after deleting a role it is still right if and only if the role was the user's only source of no permission |
| PermissionLag.OtherTenantsEntriesKept | src/grpc.rs:1410-1667 | no administrative statement of one tenant changes what another tenant's entries should say |
| PermissionLag.OtherStatementsKeepEntries | src/grpc.rs:951-1036 | creating and describing roles, creating projects, enrolling and removing members change no entry's right value |
| PermissionLag.NextAnswerIsTheEntry | src/grpc.rs:805-810 | the validation after any administrative statement still answers with the live entry |
| PermissionLag.OneValidationIsRight | src/grpc.rs:805-829 | one validation on an empty server leaves a live and right entry, so the conditions here are met |
| PermissionLag.EachGoesUnseen | src/grpc.rs:1462-1487 | each of the three handlers makes a right entry wrong in some consistent store |
| PermissionLag.GrantGoesUnseen | src/grpc.rs:1635-1650 | a grant to a held role is not seen by the next validation of a cached token |
| PermissionLag.RevocationOvertakesAFill | src/grpc.rs:1560-1586 | a run from a server just started in which a revoked permission is cached again by a fill the revocation overtook, with nothing left to drop it |
| Cache.Cache.PermissionsOf | src/grpc.rs:808-829 | answering from the cache, else from the database with a fill, is the machine's three steps |
| Cache.Cache.InvalidatePerms | src/cache.rs:72-99 | the scan-and-delete loop drops every entry of the user when it completes, only that user's in any case, and gives up on an error |
| Cache.Cache.Deny | src/cache.rs:33-41 | an entry is set unless the id is empty, the time is up or there is no cache |
| Cache.Cache.IsDenied | src/cache.rs:44-51 | no answer for an empty id or without a cache, else whether a live entry exists |
| Denylist.AnswerAfterDenial | src/cache.rs:33-51 | a denial makes its id denied for exactly the time given and changes no other answer |
| Denylist.RevokedExactly | src/repo.rs:501-511 | over every run the durable list holds exactly the ids whose own logout got as far as its first write |
| Denylist.OthersStayAccepted | src/grpc.rs:739-746 | a token nobody logs out is never denied, with or without the cache |
| Denylist.LogoutDeniesUntilExpiry | src/grpc.rs:713-719 | after a logout on its own the cache denies the token until its expiry and less than a second beyond, and no other answer changes |
| Denylist.RecordedExactly | src/grpc.rs:714-716 | the durable entry is written exactly when the expiry is a representable timestamp |
| CacheKeys.KeysAreSeparate | src/cache.rs:104-108 | different tenant, project or user give different keys |
| CacheKeys.PatternMatchesExactly | src/cache.rs:75 | the pattern for a user text matches the keys of that text and no other, though a star also matches colons |
| CacheKeys.DenylistIsApart | src/cache.rs:33-41 | no pattern reaches a denylist entry and no key coincides with one |
| CacheKeys.KnownTexts | src/cache.rs:104-108 | keys read as they should, with and without tenant and project |
| CacheKeys.DigitsInOrder | src/grpc.rs:750-751 | the canonical text is the 32 digits in order, lower case, hyphens after the 8th, 12th, 16th and 20th |
| CacheKeys.AcceptedExactly | src/grpc.rs:1521-1528 | a text means an id if and only if, case aside, it is the id plain, hyphenated, hyphenated in braces, or hyphenated after `urn:uuid:` |
| CacheKeys.CanonicalRoundTrip | src/grpc.rs:750-751 | the canonical text of an id parses to that id |
| CacheKeys.CanonicalIsInjective | src/grpc.rs:750-751 | different ids have different canonical texts, so no two users share an entry |
| CacheKeys.InvalidationReachesExactly | src/grpc.rs:1522-1528 | an accepted spelling of an id drops the user's entries if and only if it is the canonical one |
| CacheKeys.PlainTextReachesNothing | src/grpc.rs:1522-1528 | the accepted spelling without hyphens drops nothing |
| Denylist.EntriesOutliveTokens | src/grpc.rs:718 | the remaining seconds, taken from a floored clock, never end before the token |
| Denylist.EveryRunIsConsistent | src/grpc.rs:701-723 | under every interleaving a revoked token's entry outlives it, it has expired, or its logout is between its two writes |
| Denylist.DenylistsAgree | src/grpc.rs:739-746 | for an unexpired token both lists answer the same unless a logout of it is between its two writes, and the cache never denies what is not revoked |
| Denylist.LoggedOutStaysOut | src/grpc.rs:701-723 | after a finished logout the token is denied until it expires, with or without the cache |
| AuthorizationCode.EveryRunIsConsistent | src/grpc.rs:301-482 | codes, claims, tests and pairs stay consistent under every interleaving |
| AuthorizationCode.CodesAreSingleUse | src/grpc.rs:411-427 | a code yields at most one token pair and at most one verifier is ever tested against it (section 4.1.2 of RFC 6749) |
| AuthorizationCode.IssuedForTheRequest | src/grpc.rs:390-482 | a pair is issued only for the client, redirect address and challenge of the issuing request, within five minutes, to a client that proved its secret or used a challenge, is bound to that client's tenant, and comes with the scope and the nonce that request asked for (section 4.1.3 of RFC 6749, section 4.6 of RFC 7636) |
| AuthorizationCode.IssuedToAMember | src/grpc.rs:460-467 | every pair was preceded, within its exchange, by a moment at which the user was an active member of the client's tenant |
| AuthorizationCode.PairNeedsTheUser | src/grpc.rs:468 | an admitted exchange is granted its pair if and only if the user is still there at that moment |
| AuthorizationCode.OmittedMethodIsNotPlain | src/grpc.rs:422-427 | a plain challenge stored without a method is met exactly when it is its own digest |
| AuthorizationServer.Server.Create | src/grpc.rs:301-346 | a code is stored exactly for an active member of the client's tenant |
| AuthorizationServer.Server.ClaimCode | src/grpc.rs:412-420 | one row is updated if the code is there and unused, else none |
| AuthorizationServer.Server.CheckClient | src/grpc.rs:429-444 | passes if and only if the client exists and either is confidential and its secret was shown or is public and used a challenge; a public one without challenge is told so, all else is an invalid client |
| AuthorizationServer.Server.Exchange | src/grpc.rs:390-482 | one exchange alone leaves the tables and gives the answer of the interleaved machine's steps in a row |
| AuthorizationServer.ExchangeSucceedsExactly | src/grpc.rs:390-482 | a call on its own is granted a pair if and only if the code is unused and fresh, client, redirect address, verifier and secret answer the issuing request, and the user is an existing member of the client's tenant; the answer carries that request's user, client, scope and nonce |
| AuthorizationServer.RefusedExactly | src/grpc.rs:390-467 | a refused call is told the first thing that was wrong, and uses the code up if and only if it could claim it, touching no other code |
| AuthorizationServer.CodeLastsFiveMinutes | src/grpc.rs:301-346 | from a server without clients: after registering one, enrolling a user and creating a code, the right answer to it is granted a pair exactly in the next five minutes |
| AuthorizationServer.SoftDeletedIsServedExactly | src/grpc.rs:390-482 | after a soft deletion a call is granted a pair if and only if it was deserved without it, for the code's user |
| AuthorizationServer.SoftDeletedGetsACode | src/grpc.rs:301-346 | a soft-deleted user gets a code if and only if still a member of the client's tenant |
| Lockout.CounterStaysBelowLimit | src/grpc.rs:597-606 | the stored counter is below the limit between attempts |
| Lockout.RefusalChangesNothing | src/grpc.rs:590-594 | an attempt refused because of a lock leaves counter and lock as they are |
| Lockout.LockEndsOnTime | src/grpc.rs:599-605 | a lock ends one lockout after the attempt that set it, whatever is tried meanwhile |
| Lockout.NoLimitNoLock | src/grpc.rs:597-606 | without a positive limit a failing attempt changes nothing |
| Lockout.SuccessStartsOver | src/repo.rs:414-420 | after a success it takes exactly the limit of failures to lock again |
| Lockout.UserRow.ResetLoginState | src/repo.rs:414-420 | counter and lock are cleared |
| Lockout.WindowBound | src/grpc.rs:589-609 | any stretch of failing attempts spanning w holds at most max times (floor of w over lockout, plus one) verifications |
| Lockout.BoundIsReached | src/repo.rs:396-412 | for every number of lockouts some run fills that bound |
| LockoutParallel.ParallelWindowBound | src/grpc.rs:589-609 | with reading, checking, counting and locking interleaved in any way, at most n attempts in flight and locks written within a delay of their clock, a window of w holds at most (max - 1 + n) * (w / (lockout - delay) + 1) failed verifications |
| LockoutParallel.AloneIsAnAttempt | src/grpc.rs:589-609 | with nobody else about, the steps of an attempt come to the sequential one |
| LockoutParallel.OthersTouchNothing | src/repo.rs:396-412 | only counting and locking write to the row |
| LockoutParallel.RoundIsReached | src/grpc.rs:589-609 | a run with n attempts in flight makes max - 1 + n failed verifications in no time |
| Lockout.UserRow.FailingAttempt | src/grpc.rs:1222-1248 | an attempt of either step counts, locks at the limit and, while locked, is refused and changes nothing |
| Base64.DecodeEncode | src/totpsecret.rs:59 | decoding what was encoded returns it (section 4 of RFC 4648) |
| Base64.EncodeDecode | src/totpsecret.rs:73 | what decodes is exactly what encoding writes: one text per byte string |
| Base64.DigitsAreTheAlphabet | src/totpsecret.rs:59 | the digits are those of table 1 of RFC 4648, `+` and `/` last |
| Base64.QuantumIsTheNumber | src/totpsecret.rs:59 | four digits write in base 64 the number three bytes write in base 256, padding in place of the digits of missing bytes |
| Base64.EncodeAppends | src/totpsecret.rs:59 | whole quanta are encoded one after the other |
| Base64.KnownEncodings | src/totpsecret.rs:59 | vectors of section 10 of RFC 4648, and `+/+/` |
| TotpSecret.RoundTrip | src/totpsecret.rs:47-83 | what was encrypted decrypts to itself under the same key and to an error without it or under any other |
| TotpSecret.NoTextNoKey | src/totpsecret.rs:32-51 | only the empty key text means no key; secrets are then stored as they are |
| TotpSecret.EnvelopeLayout | src/totpsecret.rs:47-60 | what is stored is the seven characters of the tag and, in base 64, the twelve bytes of nonce followed by what sealing wrote |
| TotpSecret.Utf8Exactly | src/totpsecret.rs:82 | the bytes accepted as text are exactly the encodings of sequences of Unicode scalar values (section 3 of RFC 3629) |
| TotpSecret.OnlyEnvelopesOpen | src/totpsecret.rs:65-83 | a tagged value that opens is what encrypting its content would have written |
| TotpSecret.PlainReadsBackExactly | src/totpsecret.rs:65-68 | a value stored without a key reads back under every configuration if and only if it does not carry the tag |
| TotpSecret.SecretsComeBack | src/totpsecret.rs:47-83 | a base 32 secret comes back exactly when it was stored without a key or the same key is set, and never as another text |
| TotpSecret.EncodedKeyIsTheKey | src/totpsecret.rs:88-95 | a base 64 key of 32 bytes is used verbatim |
| TotpSecret.DerivedKeyExactly | src/totpsecret.rs:88-100 | every other key text is digested, so the key always has 32 bytes |
| TotpEncryptor.Encryptor.constructor | src/totpsecret.rs:32-39 | an empty key text means no cipher, any other the derived key |
| TotpEncryptor.Encryptor.KeyBuffer | src/totpsecret.rs:88-100 | the filled buffer is the derived key |
| TotpEncryptor.Encryptor.Encrypt | src/totpsecret.rs:47-60 | the value built in the buffer is the envelope of the specification |

## Left out

- gRPC decoding, tracing, configuration, email, key loading, signing and parsing of tokens, password hashing and second-factor code computation: input and output, or libraries taken as opaque.
- `require_perm` and the permissions a gateway passes along: the handlers are modelled from the point where they are admitted.
- Audit rows, consents, client registration, API keys and the plain list endpoints: single reads or writes without an interaction.
- Email verification, password reset and recovery codes: single-use updates of the same kind as the claim of an authorization code.
- Enrolling, activating and disabling the second factor: `enable_totp` is unguarded, so there is no ordering property to keep.
- The saga consumer: it records one row and acknowledges.
- Statement failures the service ignores (`let _ =`) and connection errors: a statement that is issued is taken to succeed, except where an error branch is modelled (constraint violations, an unacknowledged publish, a failing scan).
- `get_user_role_assignments` and the guards that read without a tenant setting: they are outside the agreement with row security, as in the source.
- Reads without a tenant: the global role query for tokens without a tenant is modelled only as the value of a cache entry.
- Deletion of a client with its codes, and deletion of a tenant or a project: no code path issues it.
- RefreshFamilies.ParallelRefreshesAllSucceed: promises nothing once a logout, wipe, password change or deletion touches the family, or a decision falls outside the lifetime or the window.
- Outbox.PublishedIsAPrefix: holds of runs in which every row arrives in order of `created_at`; `InOrderIsExact` shows that nothing less will do and `EarlierRowArrivesLate` a run without it. Two rows never share a `created_at`, and the stream remembers message ids for ever; a limited deduplication window is not modelled.
- Replica.ConsumersHoldAPastState: assumes `created_at` follows commit order, the condition `InOrderIsExact` shows to be necessary.
- RefreshServer.Server.Refresh: describes a call that runs alone; interleavings are covered by the machine, to which its contract ties it.
- AuthorizationServer.Server.Exchange: likewise, so its lost-claim branch occurs only in the machine.
- PermissionCoherence.CacheAgreesBetweenChanges: holds of runs in which no role change overtakes a fill whose value it changes and no other statement changes what is cached or being filled for the user; `CommitKeepsCoherenceExactly` and module `PermissionLag` give what happens otherwise. The cache server neither fails nor loses a command, and user ids arrive in canonical spelling.
- RbacSystem.Noninterference: does not cover `delete_user`, for which it is false; `DeleteLeavesOthersAloneExactly` has the exact condition.
- RbacRls.RevokeFailsExactlyOnSharedName: takes the subquery as always evaluated. The database may skip it when no row reaches the comparison, so for a user without an assignment in the scope the call may succeed instead; `UnheldRevokeChangesNothing` shows that the tables are the same either way. The same goes for `RbacRls.RevokeRoleAgreesExactly`, `Migration.ViewerTemplateEffect` and `RbacRepo.Repo.RevokeRole`.
- Cache.Cache.InvalidatePerms: keys are compared as tenant, project and user; `CacheKeys` relates them to their texts.
- CacheKeys.PatternMatchesExactly: glob character classes and escapes are not modelled, as no pattern contains them.
- Denylist.DenylistsAgree: the cache server neither fails nor evicts, and expiry times are within the range of timestamps.
- Lockout.WindowBound: attempts come one after the other; `LockoutParallel` bounds parallel ones.
- LockoutParallel.ParallelWindowBound: no attempt succeeds in between, attempts run to their end, and a lock is written less than one lockout after its clock was taken; an attempt broken off between verifying and counting is not counted by the code either.
- TotpSecret.RoundTrip: that what was sealed under a key opens under no other is assumed of the cipher, as is that only sealed bytes open where `Authentic` is required.
