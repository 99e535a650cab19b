// What the grace window promises: parallel refreshes of one token all succeed, and
// a family of revoked tokens comes back to life exactly through that window or
// through a refresh that was already under way.
module RefreshFamilies {
  import opened Sql
  import opened RefreshTokens

  // ── Benign parallel refreshes ─────────────────────────────

  // Nothing but refreshes touches the family of h, and a refresh presenting h
  // consults the clock before the token expires if it read it live, and within
  // the grace window of its rotation if it read it rotated.
  predicate Benign(s: Sys, e: Event, h: Hash)
    requires h in s.tokens
  {
    var user := s.tokens[h].binding.user;
    match e
    case Logout(hash) => hash != h
    case RevokeAll(u) => u != user
    case SoftDelete(u) => u != user
    case HardDelete(u) => u != user
    case Wipe(id) => id in s.handlers && s.handlers[id].pc.Wiping? ==> s.handlers[id].pc.user != user
    case Decide(id) =>
      id in s.handlers && s.handlers[id].presented == h && s.handlers[id].pc.Loaded? ==>
        var row := s.handlers[id].pc.row;
        if row.revokedAt.None? then s.now <= row.expires else s.now - row.revokedAt.value < 60 * 1_000_000
    case _ => true
  }

  predicate BenignRun(s: Sys, events: seq<Event>, h: Hash)
    decreases |events|
  {
    events == [] || (h in s.tokens && Benign(s, events[0], h) && BenignRun(Step(s, events[0]), events[1..], h))
  }

  predicate LiveOrRotated(t: Token) {
    t.revokedAt.Some? ==> t.replacedBy.Some?
  }

  // A refresh presenting h is under way or has returned a pair issued from h.
  predicate Succeeding(s: Sys, h: Hash, pc: Pc)
    requires h in s.tokens
  {
    match pc
    case Loaded(row) => LiveOrRotated(row)
    case LookingUp(row, _) => true
    case Issuing(row, _) => true
    case Rotating(row, n) => n in s.tokens && s.tokens[n].binding == s.tokens[h].binding && s.tokens[n].origin == Some(h)
    case Wiping(_) => false
    case Finished(Pair(n)) => n in s.tokens && s.tokens[n].binding == s.tokens[h].binding && s.tokens[n].origin == Some(h)
    case Finished(Rejected(_)) => false
  }

  ghost predicate AllSucceed(s: Sys, h: Hash) {
    && h in s.tokens && LiveOrRotated(s.tokens[h])
    && forall id | id in s.handlers && s.handlers[id].presented == h :: Succeeding(s, h, s.handlers[id].pc)
  }

  lemma BenignStepKeepsRow(s: Sys, e: Event, h: Hash)
    requires Inv(s) && AllSucceed(s, h) && Benign(s, e, h)
    ensures h in Step(s, e).tokens && LiveOrRotated(Step(s, e).tokens[h])
    ensures Step(s, e).tokens[h].binding == s.tokens[h].binding
    ensures forall n | n in s.tokens && s.tokens[n].binding == s.tokens[h].binding ::
              n in Step(s, e).tokens && Step(s, e).tokens[n].binding == s.tokens[n].binding
                && Step(s, e).tokens[n].origin == s.tokens[n].origin
  {
    assert TokenOk(s, h);
  }

  lemma BenignStepKeepsHandler(s: Sys, e: Event, h: Hash, id: nat)
    requires Inv(s) && AllSucceed(s, h) && Benign(s, e, h) && h in Step(s, e).tokens
    requires id in Step(s, e).handlers && Step(s, e).handlers[id].presented == h
    requires forall n | n in s.tokens && s.tokens[n].binding == s.tokens[h].binding ::
               n in Step(s, e).tokens && Step(s, e).tokens[n].binding == s.tokens[n].binding
                 && Step(s, e).tokens[n].origin == s.tokens[n].origin
    ensures Succeeding(Step(s, e), h, Step(s, e).handlers[id].pc)
  {
    hide RevokeUser, RevokeOne, RotateOne, TokenOk;
    if id in s.handlers {
      assert s.handlers[id].presented == h && Succeeding(s, h, s.handlers[id].pc);
      assert HandlerOk(s, s.handlers[id]);
      HandlersUserIsThere(s, id);
    } else {
      assert e.Present?;
    }
  }

  lemma HandlersUserIsThere(s: Sys, id: nat)
    requires Inv(s) && id in s.handlers && s.handlers[id].presented in s.tokens
    ensures s.tokens[s.handlers[id].presented].binding.user in s.users
    ensures HoldsRow(s.handlers[id].pc) ==> s.handlers[id].pc.row.binding == s.tokens[s.handlers[id].presented].binding
  {
  }

  lemma BenignStep(s: Sys, e: Event, h: Hash)
    requires Inv(s) && AllSucceed(s, h) && Benign(s, e, h)
    ensures AllSucceed(Step(s, e), h)
  {
    hide Step, Inv, Benign;
    BenignStepKeepsRow(s, e, h);
    var s' := Step(s, e);
    forall id | id in s'.handlers && s'.handlers[id].presented == h
      ensures Succeeding(s', h, s'.handlers[id].pc)
    {
      BenignStepKeepsHandler(s, e, h, id);
    }
  }

  // As long as no logout, wipe, password change or deletion touches the family and
  // every decision falls within the token's lifetime or its grace window: however
  // many refreshes of one live token interleave, none is rejected, none wipes the
  // family, and each that has finished returned a stored pair with the same user,
  // tenant and project, issued from that token.
  lemma {:induction false} ParallelRefreshesAllSucceed(s: Sys, events: seq<Event>, h: Hash)
    requires Inv(s) && AllSucceed(s, h) && BenignRun(s, events, h)
    ensures AllSucceed(Run(s, events), h)
    decreases |events|
  {
    if events != [] {
      BenignStep(s, events[0], h);
      StepKeepsInvariant(s, events[0]);
      ParallelRefreshesAllSucceed(Step(s, events[0]), events[1..], h);
    }
  }

  // ── Dead families ─────────────────────────────────────────

  predicate AllRevoked(s: Sys, user: Uuid) {
    forall h | h in s.tokens && s.tokens[h].binding.user == user :: s.tokens[h].revokedAt.Some?
  }

  predicate RevokedForGood(t: Token, now: int) {
    t.revokedAt.Some? && !InGrace(t, now)
  }

  // A refresh that, left to itself from now on, stores a new token.
  predicate WillIssue(pc: Pc, user: Uuid, now: int) {
    && HoldsRow(pc) && pc.row.binding.user == user
    && (pc.LookingUp? || pc.Issuing? || (pc.Loaded? && Decision(pc.row, now).LookingUp?))
  }

  // No token of the user can be renewed and no refresh under way will issue one;
  // for a deleted user, there is none and never will be.
  predicate Dead(s: Sys, user: Uuid) {
    && (user in s.users ==> user in s.known)
    && (forall h | h in s.tokens && s.tokens[h].binding.user == user :: user in s.users && RevokedForGood(s.tokens[h], s.now))
    && (forall id | id in s.handlers && user in s.users :: !WillIssue(s.handlers[id].pc, user, s.now))
    && (forall id | id in s.handlers && HoldsRow(s.handlers[id].pc) && s.handlers[id].pc.row.binding.user == user :: user in s.known)
  }

  function FamilyOf(s: Sys, user: Uuid): set<Hash> {
    set h | h in s.tokens && s.tokens[h].binding.user == user
  }

  predicate NoLogin(events: seq<Event>, user: Uuid) {
    forall e | e in events :: e.Login? ==> e.binding.user != user
  }

  lemma DeadStep(s: Sys, e: Event, user: Uuid)
    requires Dead(s, user) && (e.Login? ==> e.binding.user != user)
    ensures Dead(Step(s, e), user)
    ensures FamilyOf(Step(s, e), user) <= FamilyOf(s, user)
  {
    var s' := Step(s, e);
    forall h | h in s'.tokens && s'.tokens[h].binding.user == user
      ensures h in FamilyOf(s, user) && user in s'.users && RevokedForGood(s'.tokens[h], s'.now)
    {
      DeadStepKeepsRow(s, e, user, h);
    }
    forall id | id in s'.handlers
      ensures user in s'.users ==> !WillIssue(s'.handlers[id].pc, user, s'.now)
      ensures HoldsRow(s'.handlers[id].pc) && s'.handlers[id].pc.row.binding.user == user ==> user in s'.known
    {
      DeadStepKeepsHandler(s, e, user, id);
    }
  }

  lemma DeadStepKeepsHandler(s: Sys, e: Event, user: Uuid, id: nat)
    requires Dead(s, user) && id in Step(s, e).handlers
    ensures var s', pc := Step(s, e), Step(s, e).handlers[id].pc;
            && (user in s'.users ==> !WillIssue(pc, user, s'.now))
            && (HoldsRow(pc) && pc.row.binding.user == user ==> user in s'.known)
  {
    hide RevokeUser, RevokeOne, RotateOne;
  }

  lemma DeadStepKeepsRow(s: Sys, e: Event, user: Uuid, h: Hash)
    requires Dead(s, user) && (e.Login? ==> e.binding.user != user)
    requires h in Step(s, e).tokens && Step(s, e).tokens[h].binding.user == user
    ensures h in s.tokens && s.tokens[h].binding.user == user && user in Step(s, e).users
    ensures RevokedForGood(Step(s, e).tokens[h], Step(s, e).now)
  {
  }

  // A dead family stays dead until a new login, and gets no new token.
  lemma {:induction false} DeadStaysDead(s: Sys, events: seq<Event>, user: Uuid)
    requires Dead(s, user) && NoLogin(events, user)
    ensures Dead(Run(s, events), user) && AllRevoked(Run(s, events), user)
    ensures FamilyOf(Run(s, events), user) <= FamilyOf(s, user)
    decreases |events|
  {
    if events != [] {
      var s1 := Step(s, events[0]);
      DeadStep(s, events[0], user);
      DeadStaysDead(s1, events[1..], user);
    }
  }

  // Revoking everything and letting the window pass kills a family exactly when no
  // refresh is then still going to issue.
  lemma RevokingThenWaitingKills(s: Sys, user: Uuid, d: nat)
    requires Inv(s) && d >= 60 * 1_000_000
    ensures Dead(Run(s, [RevokeAll(user), Tick(d)]), user) <==>
            (user in s.users ==> forall id | id in s.handlers :: !WillIssue(s.handlers[id].pc, user, s.now + d))
  {
    var s1 := Step(s, RevokeAll(user));
    RunOne(s1, Tick(d));
    assert [RevokeAll(user), Tick(d)][1..] == [Tick(d)];
    assert Run(s, [RevokeAll(user), Tick(d)]) == Step(s1, Tick(d));
    RevokedOutOfGrace(s, user, d);
    hide RevokeUser, Run, WillIssue, RevokedForGood, TokenOk;
    assert forall id | id in s.handlers :: HandlerOk(s, s.handlers[id]);
  }

  lemma RevokedOutOfGrace(s: Sys, user: Uuid, d: nat)
    requires Inv(s) && d >= GRACE
    ensures var tokens := RevokeUser(s.tokens, user, s.now);
            forall h | h in tokens && tokens[h].binding.user == user ::
              user in s.users && RevokedForGood(tokens[h], s.now + d)
  {
    assert forall h | h in s.tokens :: TokenOk(s, h);
  }

  lemma RunOne(s: Sys, e: Event)
    ensures Run(s, [e]) == Step(s, e)
  {
  }

  lemma {:induction false} FreshName(names: set<nat>) returns (name: nat)
    ensures forall n | n in names :: n < name
    decreases |names|
  {
    if names == {} {
      name := 0;
    } else {
      var n :| n in names;
      var rest := FreshName(names - {n});
      name := if rest <= n then n + 1 else rest;
      assert forall k | k in names :: k == n || k in names - {n};
    }
  }

  // Whether some run without a login of this user leaves the user a live token.
  ghost predicate CanRevive(s: Sys, user: Uuid) {
    exists events :: NoLogin(events, user) && !AllRevoked(Run(s, events), user)
  }

  lemma CanReviveEarlier(s: Sys, e: Event, user: Uuid)
    requires CanRevive(Step(s, e), user) && !e.Login?
    ensures CanRevive(s, user)
  {
    hide Step, AllRevoked;
    var events :| NoLogin(events, user) && !AllRevoked(Run(Step(s, e), events), user);
    assert ([e] + events)[1..] == events;
    assert Run(s, [e] + events) == Run(Step(s, e), events);
    assert NoLogin([e] + events, user);
  }

  lemma IssuingRevives(s: Sys, user: Uuid, id: nat)
    requires user in s.users && id in s.handlers && s.handlers[id].pc.Issuing?
    requires s.handlers[id].pc.row.binding.user == user
    ensures CanRevive(s, user)
  {
    var n := FreshName(s.used);
    assert n !in s.used;
    RunOne(s, Issue(id, n));
    assert n in Step(s, Issue(id, n)).tokens && Step(s, Issue(id, n)).tokens[n].revokedAt.None?;
    assert NoLogin([Issue(id, n)], user) && !AllRevoked(Run(s, [Issue(id, n)]), user);
  }

  lemma LookingUpRevives(s: Sys, user: Uuid, id: nat)
    requires user in s.users && id in s.handlers && s.handlers[id].pc.LookingUp?
    requires s.handlers[id].pc.row.binding.user == user
    ensures CanRevive(s, user)
  {
    IssuingRevives(Step(s, LookUp(id)), user, id);
    CanReviveEarlier(s, LookUp(id), user);
  }

  lemma WillIssueRevives(s: Sys, user: Uuid, id: nat)
    requires user in s.users && id in s.handlers && WillIssue(s.handlers[id].pc, user, s.now)
    ensures CanRevive(s, user)
  {
    hide CanRevive;
    if s.handlers[id].pc.Loaded? {
      LookingUpRevives(Step(s, Decide(id)), user, id);
      CanReviveEarlier(s, Decide(id), user);
    } else if s.handlers[id].pc.LookingUp? {
      LookingUpRevives(s, user, id);
    } else {
      IssuingRevives(s, user, id);
    }
  }

  lemma GraceRevives(s: Sys, user: Uuid, h: Hash)
    requires Inv(s) && h in s.tokens && s.tokens[h].binding.user == user && InGrace(s.tokens[h], s.now)
    ensures CanRevive(s, user)
  {
    var id := FreshName(s.handlers.Keys);
    assert id !in s.handlers.Keys && TokenOk(s, h);
    WillIssueRevives(Step(s, Present(id, h)), user, id);
    CanReviveEarlier(s, Present(id, h), user);
  }

  // With every token of a user revoked, by a wipe, a password change or a soft
  // delete, the family can come back without a login exactly when one of its
  // tokens is in its grace window or a refresh already under way will still issue.
  lemma FamilyRevivesExactly(s: Sys, user: Uuid)
    requires Inv(s) && AllRevoked(s, user)
    ensures CanRevive(s, user) <==>
            || (exists h :: h in s.tokens && s.tokens[h].binding.user == user && InGrace(s.tokens[h], s.now))
            || (user in s.users && exists id | id in s.handlers :: WillIssue(s.handlers[id].pc, user, s.now))
  {
    if h :| h in s.tokens && s.tokens[h].binding.user == user && InGrace(s.tokens[h], s.now) {
      GraceRevives(s, user, h);
    } else if user in s.users && exists id | id in s.handlers :: WillIssue(s.handlers[id].pc, user, s.now) {
      var id :| id in s.handlers && WillIssue(s.handlers[id].pc, user, s.now);
      WillIssueRevives(s, user, id);
    } else {
      NothingLeftIsDead(s, user);
      forall events | NoLogin(events, user)
        ensures AllRevoked(Run(s, events), user)
      {
        DeadStaysDead(s, events, user);
      }
    }
  }

  lemma NothingLeftIsDead(s: Sys, user: Uuid)
    requires Inv(s) && AllRevoked(s, user)
    requires forall h | h in s.tokens && s.tokens[h].binding.user == user :: !InGrace(s.tokens[h], s.now)
    requires user in s.users ==> forall id | id in s.handlers :: !WillIssue(s.handlers[id].pc, user, s.now)
    ensures Dead(s, user)
  {
    assert forall h | h in s.tokens :: TokenOk(s, h);
    assert forall id | id in s.handlers :: HandlerOk(s, s.handlers[id]);
  }

  // It happens: a user logs in and renews once, and is soft-deleted right after.
  // Every token is revoked, and the family can still come back.
  lemma SoftDeletedFamilyRevives(s: Sys, binding: Binding, h: Hash, n: Hash)
    requires Inv(s) && s.handlers == map[] && binding.user in s.users && FamilyOf(s, binding.user) == {}
    requires h !in s.used && n !in s.used && h != n && s.ttl >= 0
    ensures var events := [Login(binding, h), Present(0, h), Decide(0), LookUp(0), Issue(0, n), Rotate(0), SoftDelete(binding.user)];
            var end := Run(s, events);
            Inv(end) && AllRevoked(end, binding.user) && CanRevive(end, binding.user)
  {
    var user := binding.user;
    var renewal := [Present(0, h), Decide(0), LookUp(0), Issue(0, n), Rotate(0), SoftDelete(user)];
    var events := [Login(binding, h)] + renewal;
    var s1 := Step(s, Login(binding, h));
    assert events[1..] == renewal;
    ForestOnEveryRun(s, events);
    LoginAddsOne(s, binding, h);
    RenewedThenDeleted(s1, binding, h, n);
    GraceRevives(Run(s, events), user, h);
    assert events == [Login(binding, h), Present(0, h), Decide(0), LookUp(0), Issue(0, n), Rotate(0), SoftDelete(user)];
  }

  lemma LoginAddsOne(s: Sys, binding: Binding, h: Hash)
    requires binding.user in s.users && h !in s.used && FamilyOf(s, binding.user) == {}
    ensures FamilyOf(Step(s, Login(binding, h)), binding.user) == {h}
  {
    assert forall q | q in s.tokens && s.tokens[q].binding.user == binding.user :: q in FamilyOf(s, binding.user);
  }

  lemma RenewedThenDeleted(s: Sys, binding: Binding, h: Hash, n: Hash)
    requires s.handlers == map[] && binding.user in s.users && FamilyOf(s, binding.user) == {h}
    requires h in s.tokens && s.tokens[h].binding == binding && s.tokens[h].revokedAt.None? && s.now <= s.tokens[h].expires
    requires n !in s.used && n != h
    ensures var end := Run(s, [Present(0, h), Decide(0), LookUp(0), Issue(0, n), Rotate(0), SoftDelete(binding.user)]);
            && AllRevoked(end, binding.user)
            && h in end.tokens && end.tokens[h].binding == binding && InGrace(end.tokens[h], end.now)
  {
    var events := [Present(0, h), Decide(0), LookUp(0), Issue(0, n), Rotate(0), SoftDelete(binding.user)];
    var row := s.tokens[h];
    var s1 := Step(s, events[0]);
    assert s1 == s.(handlers := map[0 := Handler(h, Loaded(row))]);
    var s2 := Step(s1, events[1]);
    assert s2 == s.(handlers := map[0 := Handler(h, LookingUp(row, false))]);
    var s3 := Step(s2, events[2]);
    assert s3 == s.(handlers := map[0 := Handler(h, Issuing(row, false))]);
    var s4 := Step(s3, events[3]);
    assert s4 == Insert(s, n, binding, Some(h)).(handlers := map[0 := Handler(h, Rotating(row, n))]);
    var s5 := Step(s4, events[4]);
    var s6 := Step(s5, events[5]);
    RunSix(s, events);
    assert forall q | q in s.tokens && s.tokens[q].binding.user == binding.user :: q in FamilyOf(s, binding.user);
  }

  lemma RunSix(s: Sys, events: seq<Event>)
    requires |events| == 6
    ensures Run(s, events) ==
            Step(Step(Step(Step(Step(Step(s, events[0]), events[1]), events[2]), events[3]), events[4]), events[5])
  {
    hide Step;
    var s1 := Step(s, events[0]);
    var s2 := Step(s1, events[1]);
    var s3 := Step(s2, events[2]);
    var s4 := Step(s3, events[3]);
    var s5 := Step(s4, events[4]);
    assert Run(s, events) == Run(s1, events[1..]);
    assert events[1..][1..] == events[2..] && Run(s1, events[1..]) == Run(s2, events[2..]);
    assert events[2..][1..] == events[3..] && Run(s2, events[2..]) == Run(s3, events[3..]);
    assert events[3..][1..] == events[4..] && Run(s3, events[3..]) == Run(s4, events[4..]);
    assert events[4..][1..] == events[5..] && Run(s4, events[4..]) == Run(s5, events[5..]);
    assert events[5..] == [events[5]];
    RunOne(s5, events[5]);
  }
}
