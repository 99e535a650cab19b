// Refresh-token rotation as interleaved steps: a refresh reads the row, decides
// by the clock, looks the user up, issues a successor and only then marks the
// presented token with a compare-and-set; logouts and family wipes come between.
module RefreshTokens {
  import opened Sql

  const SECOND := 1_000_000            // timestamps have microsecond resolution
  const GRACE := 60 * SECOND

  type Hash = nat

  datatype Binding = Binding(user: Uuid, tenant: Uuid, project: Option<Uuid>)

  // serial and origin are history: the order of issue and the token a refresh
  // presented to get this one. No step reads them.
  datatype Token = Token(
    binding: Binding, expires: int, revokedAt: Option<int>, replacedBy: Option<Hash>,
    serial: nat, origin: Option<Hash>)

  datatype Reason = UnknownToken | Reused | Expired | UserNotFound | PersistFailed

  datatype Outcome = Pair(token: Hash) | Rejected(reason: Reason)

  datatype Pc =
    | Loaded(row: Token)
    | LookingUp(row: Token, grace: bool)
    | Issuing(row: Token, grace: bool)
    | Rotating(row: Token, successor: Hash)
    | Wiping(user: Uuid)
    | Finished(outcome: Outcome)

  datatype Handler = Handler(presented: Hash, pc: Pc)

  datatype Sys = Sys(
    now: int, ttl: int,
    users: set<Uuid>, known: set<Uuid>,
    tokens: map<Hash, Token>, used: set<Hash>, next: nat,
    handlers: map<nat, Handler>)

  datatype Event =
    | Tick(d: nat)
    | Present(id: nat, hash: Hash)
    | Decide(id: nat)
    | LookUp(id: nat)
    | Issue(id: nat, newHash: Hash)
    | Rotate(id: nat)
    | Wipe(id: nat)
    | Logout(hash: Hash)
    | RevokeAll(user: Uuid)         // password reset or change
    | SoftDelete(user: Uuid)
    | HardDelete(user: Uuid)
    | Join(user: Uuid)
    | Login(binding: Binding, newHash: Hash)   // login, code exchange, tenant switch

  // ── Statements ────────────────────────────────────────────

  // UPDATE ... SET revoked_at = now() WHERE user_id = $1 AND revoked_at IS NULL
  function RevokeUser(tokens: map<Hash, Token>, user: Uuid, now: int): map<Hash, Token> {
    map h | h in tokens ::
      if tokens[h].binding.user == user && tokens[h].revokedAt.None? then tokens[h].(revokedAt := Some(now)) else tokens[h]
  }

  function RevokeOne(tokens: map<Hash, Token>, hash: Hash, now: int): map<Hash, Token> {
    if hash in tokens && tokens[hash].revokedAt.None? then tokens[hash := tokens[hash].(revokedAt := Some(now))] else tokens
  }

  // UPDATE ... SET revoked_at = now(), replaced_by = $2 WHERE ... AND revoked_at IS NULL
  function RotateOne(tokens: map<Hash, Token>, hash: Hash, successor: Hash, now: int): map<Hash, Token> {
    if hash in tokens && tokens[hash].revokedAt.None?
    then tokens[hash := tokens[hash].(revokedAt := Some(now), replacedBy := Some(successor))]
    else tokens
  }

  // Random tokens are fresh: a hash used before is never drawn again.
  function Insert(s: Sys, hash: Hash, binding: Binding, origin: Option<Hash>): Sys {
    s.(tokens := s.tokens[hash := Token(binding, s.now + s.ttl, None, None, s.next, origin)],
       used := s.used + {hash}, next := s.next + 1)
  }

  // ── Steps ─────────────────────────────────────────────────

  predicate InGrace(row: Token, now: int) {
    row.revokedAt.Some? && row.replacedBy.Some? && now - row.revokedAt.value < GRACE
  }

  // What the handler does with the row it has read, by the clock.
  function Decision(row: Token, now: int): Pc {
    if row.revokedAt.Some? then
      if InGrace(row, now) then LookingUp(row, true) else Wiping(row.binding.user)
    else if row.expires < now then Finished(Rejected(Expired))
    else LookingUp(row, false)
  }

  function At(s: Sys, id: nat, pc: Pc): Sys
    requires id in s.handlers
  {
    s.(handlers := s.handlers[id := s.handlers[id].(pc := pc)])
  }

  function Step(s: Sys, e: Event): Sys {
    match e
    case Tick(d) => s.(now := s.now + d)
    case Present(id, hash) =>
      if id in s.handlers then s
      else s.(handlers := s.handlers[id := Handler(hash,
        if hash in s.tokens then Loaded(s.tokens[hash]) else Finished(Rejected(UnknownToken)))])
    case Decide(id) =>
      if id in s.handlers && s.handlers[id].pc.Loaded? then At(s, id, Decision(s.handlers[id].pc.row, s.now)) else s
    case LookUp(id) =>
      if id in s.handlers && s.handlers[id].pc.LookingUp? then
        var row := s.handlers[id].pc.row;
        At(s, id, if row.binding.user in s.users then Issuing(row, s.handlers[id].pc.grace)
                  else Finished(Rejected(UserNotFound)))
      else s
    case Issue(id, newHash) =>
      if id in s.handlers && s.handlers[id].pc.Issuing? && newHash !in s.used then
        var row := s.handlers[id].pc.row;
        if row.binding.user !in s.users then At(s, id, Finished(Rejected(PersistFailed)))
        else At(Insert(s, newHash, row.binding, Some(s.handlers[id].presented)), id,
          if s.handlers[id].pc.grace then Finished(Pair(newHash)) else Rotating(row, newHash))
      else s
    case Rotate(id) =>
      if id in s.handlers && s.handlers[id].pc.Rotating? then
        var successor := s.handlers[id].pc.successor;
        At(s.(tokens := RotateOne(s.tokens, s.handlers[id].presented, successor, s.now)), id, Finished(Pair(successor)))
      else s
    case Wipe(id) =>
      if id in s.handlers && s.handlers[id].pc.Wiping? then
        At(s.(tokens := RevokeUser(s.tokens, s.handlers[id].pc.user, s.now)), id, Finished(Rejected(Reused)))
      else s
    case Logout(hash) => s.(tokens := RevokeOne(s.tokens, hash, s.now))
    case RevokeAll(user) => s.(tokens := RevokeUser(s.tokens, user, s.now))
    case SoftDelete(user) => s.(tokens := RevokeUser(s.tokens, user, s.now))
    case HardDelete(user) =>
      s.(users := s.users - {user}, tokens := map h | h in s.tokens && s.tokens[h].binding.user != user :: s.tokens[h])
    case Join(user) => if user in s.known then s else s.(users := s.users + {user}, known := s.known + {user})
    case Login(binding, newHash) =>
      if binding.user in s.users && newHash !in s.used then Insert(s, newHash, binding, None) else s
  }

  function Run(s: Sys, events: seq<Event>): Sys
    decreases |events|
  {
    if events == [] then s else Run(Step(s, events[0]), events[1..])
  }

  // ── The forest of tokens ──────────────────────────────────

  ghost predicate TokenOk(s: Sys, h: Hash)
    requires h in s.tokens
  {
    var t := s.tokens[h];
    && h in s.used && t.serial < s.next && t.binding.user in s.users
    && (t.revokedAt.Some? ==> t.revokedAt.value <= s.now)
    && (t.replacedBy.Some? ==>
      && t.revokedAt.Some?
      && t.replacedBy.value in s.tokens
      && s.tokens[t.replacedBy.value].origin == Some(h))
    && (t.origin.Some? ==>
      && t.origin.value in s.tokens
      && s.tokens[t.origin.value].serial < t.serial
      && s.tokens[t.origin.value].binding == t.binding)
  }

  // The row a handler holds is a past value of the row it presented, as long as
  // that row is there; it goes only with its user.
  ghost predicate Evolved(before: Token, after: Token) {
    && after.binding == before.binding && after.expires == before.expires
    && after.serial == before.serial && after.origin == before.origin
    && (before.revokedAt.Some? ==> after == before)
  }

  predicate HoldsRow(pc: Pc) {
    pc.Loaded? || pc.LookingUp? || pc.Issuing? || pc.Rotating?
  }

  ghost predicate HandlerOk(s: Sys, h: Handler) {
    && (HoldsRow(h.pc) ==>
      && h.presented in s.used && h.pc.row.binding.user in s.known
      && (h.presented in s.tokens ==> Evolved(h.pc.row, s.tokens[h.presented]))
      && (h.pc.row.binding.user in s.users ==> h.presented in s.tokens))
    && (h.pc.Rotating? && h.pc.row.binding.user in s.users ==>
      h.pc.successor in s.tokens && s.tokens[h.pc.successor].origin == Some(h.presented))
  }

  ghost predicate Inv(s: Sys) {
    && s.users <= s.known
    && (forall h | h in s.tokens :: TokenOk(s, h))
    && (forall id | id in s.handlers :: HandlerOk(s, s.handlers[id]))
  }

  // ── Preservation ──────────────────────────────────────────

  // A change to the token rows that keeps the forest: rows only evolve, and a row
  // that gets a successor gets one issued from it.
  ghost predicate RowsEvolve(tokens: map<Hash, Token>, tokens': map<Hash, Token>, now: int) {
    && tokens'.Keys == tokens.Keys
    && (forall h | h in tokens :: Evolved(tokens[h], tokens'[h]))
    && (forall h | h in tokens && tokens'[h].revokedAt != tokens[h].revokedAt :: tokens'[h].revokedAt == Some(now))
    && (forall h | h in tokens && tokens'[h].replacedBy != tokens[h].replacedBy ::
      && tokens'[h].revokedAt.Some? && tokens'[h].replacedBy.Some?
      && tokens'[h].replacedBy.value in tokens && tokens[tokens'[h].replacedBy.value].origin == Some(h))
  }

  lemma EvolvingKeepsInvariant(s: Sys, tokens': map<Hash, Token>)
    requires Inv(s) && RowsEvolve(s.tokens, tokens', s.now)
    ensures Inv(s.(tokens := tokens'))
  {
    var s' := s.(tokens := tokens');
    forall h | h in s'.tokens
      ensures TokenOk(s', h)
    {
      assert TokenOk(s, h);
    }
    forall id | id in s'.handlers
      ensures HandlerOk(s', s'.handlers[id])
    {
      assert HandlerOk(s, s.handlers[id]);
    }
  }

  lemma RevokingEvolves(tokens: map<Hash, Token>, user: Uuid, now: int)
    ensures RowsEvolve(tokens, RevokeUser(tokens, user, now), now)
  {
  }

  lemma RevokingOneEvolves(tokens: map<Hash, Token>, hash: Hash, now: int)
    ensures RowsEvolve(tokens, RevokeOne(tokens, hash, now), now)
  {
  }

  lemma RotatingEvolves(s: Sys, hash: Hash, successor: Hash)
    requires Inv(s)
    requires hash in s.tokens ==> successor in s.tokens && s.tokens[successor].origin == Some(hash)
    ensures RowsEvolve(s.tokens, RotateOne(s.tokens, hash, successor, s.now), s.now)
  {
  }

  lemma InsertKeepsInvariant(s: Sys, hash: Hash, binding: Binding, origin: Option<Hash>)
    requires Inv(s) && hash !in s.used && binding.user in s.users
    requires origin.Some? ==> origin.value in s.tokens && s.tokens[origin.value].binding == binding
    ensures Inv(Insert(s, hash, binding, origin))
  {
  }

  lemma MoveKeepsInvariant(s: Sys, id: nat, pc: Pc)
    requires Inv(s) && id in s.handlers && HandlerOk(s, s.handlers[id].(pc := pc))
    ensures Inv(At(s, id, pc))
  {
  }

  lemma HardDeleteKeepsInvariant(s: Sys, user: Uuid)
    requires Inv(s)
    ensures Inv(Step(s, HardDelete(user)))
  {
  }

  // When a rotation finds the presented row, the successor is there and was
  // issued from it.
  lemma RotateIsGuarded(s: Sys, id: nat)
    requires Inv(s) && id in s.handlers && s.handlers[id].pc.Rotating?
    ensures var h := s.handlers[id];
      h.presented in s.tokens ==> h.pc.successor in s.tokens && s.tokens[h.pc.successor].origin == Some(h.presented)
  {
  }

  lemma HandlerStepKeepsInvariant(s: Sys, e: Event)
    requires Inv(s) && (e.Decide? || e.LookUp? || e.Issue? || e.Rotate? || e.Wipe?)
    ensures Inv(Step(s, e))
  {
    if e.id in s.handlers {
      var h := s.handlers[e.id];
      assert HandlerOk(s, h);
      if e.Decide? && h.pc.Loaded? {
        MoveKeepsInvariant(s, e.id, Decision(h.pc.row, s.now));
      } else if e.LookUp? && h.pc.LookingUp? {
        MoveKeepsInvariant(s, e.id, if h.pc.row.binding.user in s.users then Issuing(h.pc.row, h.pc.grace)
          else Finished(Rejected(UserNotFound)));
      } else if e.Issue? && h.pc.Issuing? && e.newHash !in s.used {
        if h.pc.row.binding.user in s.users {
          InsertKeepsInvariant(s, e.newHash, h.pc.row.binding, Some(h.presented));
          var s1 := Insert(s, e.newHash, h.pc.row.binding, Some(h.presented));
          assert HandlerOk(s1, h);
          MoveKeepsInvariant(s1, e.id, if h.pc.grace then Finished(Pair(e.newHash)) else Rotating(h.pc.row, e.newHash));
        } else {
          MoveKeepsInvariant(s, e.id, Finished(Rejected(PersistFailed)));
        }
      } else if e.Rotate? && h.pc.Rotating? {
        RotateIsGuarded(s, e.id);
        RotatingEvolves(s, h.presented, h.pc.successor);
        EvolvingKeepsInvariant(s, RotateOne(s.tokens, h.presented, h.pc.successor, s.now));
        MoveKeepsInvariant(s.(tokens := RotateOne(s.tokens, h.presented, h.pc.successor, s.now)), e.id,
          Finished(Pair(h.pc.successor)));
      } else if e.Wipe? && h.pc.Wiping? {
        RevokingEvolves(s.tokens, h.pc.user, s.now);
        EvolvingKeepsInvariant(s, RevokeUser(s.tokens, h.pc.user, s.now));
        MoveKeepsInvariant(s.(tokens := RevokeUser(s.tokens, h.pc.user, s.now)), e.id, Finished(Rejected(Reused)));
      }
    }
  }

  lemma OtherStepKeepsInvariant(s: Sys, e: Event)
    requires Inv(s) && !(e.Decide? || e.LookUp? || e.Issue? || e.Rotate? || e.Wipe?)
    ensures Inv(Step(s, e))
  {
    match e
    case Tick(d) =>
      var s' := Step(s, e);
      assert forall h | h in s.tokens :: TokenOk(s, h) && TokenOk(s', h);
      assert forall id | id in s.handlers :: HandlerOk(s, s.handlers[id]) && HandlerOk(s', s.handlers[id]);
    case Present(id, hash) => PresentKeepsInvariant(s, id, hash);
    case Logout(hash) =>
      RevokingOneEvolves(s.tokens, hash, s.now);
      EvolvingKeepsInvariant(s, RevokeOne(s.tokens, hash, s.now));
    case RevokeAll(user) =>
      RevokingEvolves(s.tokens, user, s.now);
      EvolvingKeepsInvariant(s, RevokeUser(s.tokens, user, s.now));
    case SoftDelete(user) =>
      RevokingEvolves(s.tokens, user, s.now);
      EvolvingKeepsInvariant(s, RevokeUser(s.tokens, user, s.now));
    case HardDelete(user) => HardDeleteKeepsInvariant(s, user);
    case Join(user) =>
      var s' := Step(s, e);
      assert forall h | h in s.tokens :: TokenOk(s, h) && TokenOk(s', h);
      assert forall id | id in s.handlers :: HandlerOk(s, s.handlers[id]) && HandlerOk(s', s.handlers[id]);
    case Login(binding, newHash) =>
      if binding.user in s.users && newHash !in s.used {
        InsertKeepsInvariant(s, newHash, binding, None);
      }
  }

  lemma PresentKeepsInvariant(s: Sys, id: nat, hash: Hash)
    requires Inv(s)
    ensures Inv(Step(s, Present(id, hash)))
  {
  }

  // ── Rows over whole runs ──────────────────────────────────

  // Hashes are never reused, and whatever is known of a row stays: its binding,
  // expiry and origin always, all of it once it is revoked.
  ghost predicate RowsKept(s: Sys, s': Sys) {
    && s.used <= s'.used && s.now <= s'.now && s.next <= s'.next
    && forall h | h in s.used && h in s'.tokens :: h in s.tokens && Evolved(s.tokens[h], s'.tokens[h])
  }

  lemma StepKeepsRows(s: Sys, e: Event)
    requires s.tokens.Keys <= s.used
    ensures RowsKept(s, Step(s, e))
  {
  }

  // revoked_at and replaced_by are written at most once, and the forest stands,
  // under every interleaving.
  lemma {:induction false} ForestOnEveryRun(s: Sys, events: seq<Event>)
    requires Inv(s)
    ensures Inv(Run(s, events)) && RowsKept(s, Run(s, events))
    decreases |events|
  {
    if events != [] {
      var s1 := Step(s, events[0]);
      assert s.tokens.Keys <= s.used by {
        assert forall h | h in s.tokens :: TokenOk(s, h);
      }
      StepKeepsInvariant(s, events[0]);
      StepKeepsRows(s, events[0]);
      ForestOnEveryRun(s1, events[1..]);
    }
  }

  lemma StepKeepsInvariant(s: Sys, e: Event)
    requires Inv(s)
    ensures Inv(Step(s, e))
  {
    if e.Decide? || e.LookUp? || e.Issue? || e.Rotate? || e.Wipe? {
      HandlerStepKeepsInvariant(s, e);
    } else {
      OtherStepKeepsInvariant(s, e);
    }
  }

  // ── Chains and trees ──────────────────────────────────────

  // The token reached by following replaced_by k times, if there is one.
  function Successor(tokens: map<Hash, Token>, h: Hash, k: nat): Option<Hash>
    decreases k
  {
    if k == 0 then Some(h)
    else if h !in tokens || tokens[h].replacedBy.None? then None
    else Successor(tokens, tokens[h].replacedBy.value, k - 1)
  }

  // Following successors never comes back: each was issued later, from the same
  // binding, by a refresh that presented its predecessor.
  lemma {:induction false} SuccessorsAreYounger(s: Sys, h: Hash, k: nat)
    requires Inv(s) && h in s.tokens && Successor(s.tokens, h, k).Some?
    ensures var d := Successor(s.tokens, h, k).value;
      && d in s.tokens && s.tokens[d].binding == s.tokens[h].binding
      && s.tokens[h].serial + k <= s.tokens[d].serial
      && (k > 0 ==> d != h && s.tokens[h].revokedAt.Some?)
    decreases k
  {
    if k > 0 {
      var n := s.tokens[h].replacedBy.value;
      assert TokenOk(s, h);
      assert TokenOk(s, n);
      SuccessorsAreYounger(s, n, k - 1);
    }
  }

  // The token a login issued, from which a token descends by refreshes.
  ghost function Root(s: Sys, h: Hash): (r: Hash)
    requires Inv(s) && h in s.tokens
    ensures r in s.tokens && s.tokens[r].origin.None? && s.tokens[r].binding == s.tokens[h].binding
    decreases s.tokens[h].serial
  {
    assert TokenOk(s, h);
    if s.tokens[h].origin.None? then h else Root(s, s.tokens[h].origin.value)
  }

  // A successor belongs to the same tree, and so does the whole chain after it.
  lemma {:induction false} ChainsStayInTheTree(s: Sys, h: Hash, k: nat)
    requires Inv(s) && h in s.tokens && Successor(s.tokens, h, k).Some?
    ensures Successor(s.tokens, h, k).value in s.tokens
    ensures Root(s, Successor(s.tokens, h, k).value) == Root(s, h)
    decreases k
  {
    SuccessorsAreYounger(s, h, k);
    if k > 0 {
      assert TokenOk(s, h);
      ChainsStayInTheTree(s, s.tokens[h].replacedBy.value, k - 1);
    }
  }

  // A token keeps its place: as long as it is stored, its root never changes.
  lemma {:induction false} RootsAreStable(s: Sys, events: seq<Event>, h: Hash)
    requires Inv(s) && h in s.tokens && h in Run(s, events).tokens
    ensures Inv(Run(s, events)) && Root(Run(s, events), h) == Root(s, h)
    decreases s.tokens[h].serial
  {
    var s' := Run(s, events);
    ForestOnEveryRun(s, events);
    assert TokenOk(s, h) && TokenOk(s', h);
    if s.tokens[h].origin.Some? {
      RootsAreStable(s, events, s.tokens[h].origin.value);
    }
  }

  // Whatever interleaves: a step that stores a token stores one that is live, expires
  // a full lifetime later, and belongs to the login's binding or that of the row the
  // refresh had read.
  lemma StoredTokensAreFresh(s: Sys, e: Event, h: Hash)
    requires h !in s.tokens && h in Step(s, e).tokens
    ensures var t := Step(s, e).tokens[h];
            && t.expires == s.now + s.ttl && t.revokedAt == None && t.replacedBy == None
            && ((e.Login? && e.newHash == h && t.binding == e.binding && t.origin == None)
                || (e.Issue? && e.newHash == h && e.id in s.handlers && s.handlers[e.id].pc.Issuing?
                    && t.binding == s.handlers[e.id].pc.row.binding && t.origin == Some(s.handlers[e.id].presented)))
  {
  }

  // A user seen for the first time can log in at once; one deleted for good cannot,
  // and leaves no token behind.
  lemma LoginNeedsTheUser(s: Sys, binding: Binding, newHash: Hash)
    requires newHash !in s.used
    ensures binding.user !in s.known ==> newHash in Step(Step(s, Join(binding.user)), Login(binding, newHash)).tokens
    ensures var gone := Step(s, HardDelete(binding.user));
            && Step(gone, Login(binding, newHash)) == gone
            && forall h :: h in gone.tokens <==> h in s.tokens && s.tokens[h].binding.user != binding.user
  {
  }
}
