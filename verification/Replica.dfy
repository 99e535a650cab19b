// The users table and the events written with it. Each transaction changes the
// table and appends its event together, so replaying the events rebuilds the
// table; and a consumer of the published prefix is always at some past state.
module Replica {
  import opened Sql
  import opened Outbox

  datatype Identity = Identity(email: string, deleted: bool)

  type Users = map<Uuid, Identity>

  // ── The consumer ──────────────────────────────────────────

  // Events about users that are not there are no-ops.
  function Apply(users: Users, e: UserEvent): Users {
    match e
    case Registered(user, email) => users[user := Identity(email, false)]
    case Deleted(user, hard) =>
      if hard then users - {user}
      else if user in users then users[user := users[user].(deleted := true)]
      else users
    case Restored(user) =>
      if user in users then users[user := users[user].(deleted := false)] else users
  }

  function Replay(users: Users, rows: seq<Row>): Users {
    if rows == [] then users else Apply(Replay(users, rows[..|rows| - 1]), rows[|rows| - 1].event)
  }

  lemma ReplayExtends(users: Users, rows: seq<Row>, row: Row)
    ensures Replay(users, rows + [row]) == Apply(Replay(users, rows), row.event)
  {
  }

  // ── The transactions ──────────────────────────────────────

  datatype Change = Register(user: Uuid, email: string) | Delete(user: Uuid, hard: bool) | Restore(user: Uuid)

  predicate EmailTaken(users: Users, email: string) {
    exists u | u in users :: users[u].email == email
  }

  // Only a registration can fail: the id or the email is taken. Deleting and
  // restoring write their event whether or not a row matched.
  predicate Succeeds(users: Users, c: Change) {
    c.Register? ==> c.user !in users && !EmailTaken(users, c.email)
  }

  function EventOf(c: Change): UserEvent {
    match c
    case Register(user, email) => Registered(user, email)
    case Delete(user, hard) => Deleted(user, hard)
    case Restore(user) => Restored(user)
  }

  // The statements of the transaction on the users table.
  function Written(users: Users, c: Change): Users {
    match c
    case Register(user, email) => users[user := Identity(email, false)]
    case Delete(user, hard) =>
      if hard then map u | u in users && u != user :: users[u]
      else map u | u in users :: if u == user && !users[u].deleted then users[u].(deleted := true) else users[u]
    case Restore(user) =>
      map u | u in users :: if u == user then users[u].(deleted := false) else users[u]
  }

  // The event says exactly what the statements did.
  lemma EventMatchesWrite(users: Users, c: Change)
    ensures Apply(users, EventOf(c)) == Written(users, c)
  {
  }

  function LookUp(users: Users, user: Uuid): Option<Identity> {
    if user in users then Some(users[user]) else None
  }

  // What a change does to each user: a deletion hides the row or takes it away, and
  // restoring shows it again under the same email; everybody else stays as they are.
  lemma ChangeEffect(users: Users, c: Change, user: Uuid)
    ensures var before := LookUp(users, user);
      var after := LookUp(Written(users, c), user);
      if user != c.user then after == before
      else match c
        case Register(_, email) => after == Some(Identity(email, false))
        case Delete(_, hard) =>
          after == if hard || before.None? then None else Some(Identity(before.value.email, true))
        case Restore(_) =>
          after == if before.None? then None else Some(Identity(before.value.email, false))
  {
  }

  ghost predicate EmailsUnique(users: Users) {
    forall u, v | u in users && v in users && users[u].email == users[v].email :: u == v
  }

  lemma ChangesKeepEmailsUnique(users: Users, c: Change)
    requires EmailsUnique(users) && Succeeds(users, c)
    ensures EmailsUnique(Written(users, c))
    ensures c.Register? ==> forall u | u in users :: LookUp(Written(users, c), u) == LookUp(users, u)
  {
  }

  // Somebody else can register a deleted user's email exactly after a hard deletion:
  // a soft-deleted user's email stays taken.
  lemma EmailIsFreedExactly(users: Users, user: Uuid, hard: bool, other: Uuid)
    requires EmailsUnique(users) && user in users && other !in users
    ensures Succeeds(Written(users, Delete(user, hard)), Register(other, users[user].email)) <==> hard
    ensures Succeeds(Written(Written(users, Delete(user, hard)), Restore(user)), Register(other, users[user].email)) <==> hard
  {
    var after := Written(users, Delete(user, hard));
    if !hard {
      assert after[user].email == users[user].email;
      assert Written(after, Restore(user))[user].email == users[user].email;
    }
  }

  // The table and the outbox, updated in place by each transaction.
  class UserStore {
    var users: Users
    var outbox: seq<Row>
    ghost var initial: Users

    // Replaying the outbox from the initial table gives the table.
    ghost predicate Valid()
      reads this
    {
      Replay(initial, outbox) == users
    }

    constructor (users: Users)
      ensures Valid() && this.users == users && initial == users && outbox == []
    {
      this.users, initial, outbox := users, users, [];
    }

    // Identity and event in one transaction; a duplicate writes neither.
    method CreateUserEvent(user: Uuid, email: string, id: nat, at: int) returns (ok: bool)
      requires Valid()
      modifies this`users, this`outbox
      ensures Valid() && ok == Succeeds(old(users), Register(user, email))
      ensures ok ==> users == old(users)[user := Identity(email, false)]
      ensures ok ==> outbox == old(outbox) + [Row(id, at, Registered(user, email))]
      ensures !ok ==> users == old(users) && outbox == old(outbox)
    {
      if user in users || exists u | u in users :: users[u].email == email {
        return false;
      }
      ReplayExtends(initial, outbox, Row(id, at, Registered(user, email)));
      users := users[user := Identity(email, false)];
      outbox := outbox + [Row(id, at, Registered(user, email))];
      return true;
    }

    method DeleteUserEvent(user: Uuid, hard: bool, id: nat, at: int)
      requires Valid()
      modifies this`users, this`outbox
      ensures Valid()
      ensures users == Written(old(users), Delete(user, hard))
      ensures outbox == old(outbox) + [Row(id, at, Deleted(user, hard))]
    {
      EventMatchesWrite(users, Delete(user, hard));
      ReplayExtends(initial, outbox, Row(id, at, Deleted(user, hard)));
      if hard {
        users := map u | u in users && u != user :: users[u];
      } else if user in users && !users[user].deleted {
        users := users[user := users[user].(deleted := true)];
      }
      outbox := outbox + [Row(id, at, Deleted(user, hard))];
    }

    method RestoreUserEvent(user: Uuid, id: nat, at: int)
      requires Valid()
      modifies this`users, this`outbox
      ensures Valid()
      ensures users == Written(old(users), Restore(user))
      ensures outbox == old(outbox) + [Row(id, at, Restored(user))]
    {
      EventMatchesWrite(users, Restore(user));
      ReplayExtends(initial, outbox, Row(id, at, Restored(user)));
      ghost var before := users;
      if user in users {
        users := users[user := users[user].(deleted := false)];
      }
      assert users == Written(before, Restore(user));
      outbox := outbox + [Row(id, at, Restored(user))];
    }
  }

  // ── Transactions and relays together ──────────────────────

  // history[i] is the users table after the i-th recorded event.
  datatype Sys = Sys(users: Users, history: seq<Users>, world: World)

  datatype SysEvent = Transact(change: Change, id: nat, at: int) | Relayed(event: Event)

  function SysStep(s: Sys, e: SysEvent): Sys {
    match e
    case Transact(change, id, at) =>
      var row := Row(id, at, EventOf(change));
      if Succeeds(s.users, change) && CanInsert(s.world, row) then
        Sys(Written(s.users, change), s.history + [Written(s.users, change)], Step(s.world, Insert(row)))
      else s
    case Relayed(event) => if event.Insert? then s else s.(world := Step(s.world, event))
  }

  function SysRun(s: Sys, events: seq<SysEvent>): Sys
    decreases |events|
  {
    if events == [] then s else SysRun(SysStep(s, events[0]), events[1..])
  }

  // created_at follows the order of the commits.
  ghost predicate CommitOrder(s: Sys, e: SysEvent) {
    e.Transact? ==> forall r | r in s.world.rows :: r.at < e.at
  }

  ghost predicate InCommitOrder(s: Sys, events: seq<SysEvent>)
    decreases |events|
  {
    events == [] || (CommitOrder(s, events[0]) && InCommitOrder(SysStep(s, events[0]), events[1..]))
  }

  ghost predicate SysInv(s: Sys) {
    && Inv(s.world)
    && Records(s.history, s.world.rows)
    && s.users == s.history[|s.world.rows|]
  }

  lemma InitIsConsistent(users: Users)
    ensures SysInv(Sys(users, [users], World([], {}, [], map[])))
  {
  }

  lemma TransactionKeepsHistory(s: Sys, change: Change, id: nat, at: int)
    requires SysInv(s) && CommitOrder(s, Transact(change, id, at))
    ensures SysInv(SysStep(s, Transact(change, id, at)))
    ensures s.history <= SysStep(s, Transact(change, id, at)).history
  {
    var row := Row(id, at, EventOf(change));
    if Succeeds(s.users, change) && CanInsert(s.world, row) {
      hide Inv, Written, Apply, CanInsert, InsertSorted, InOrder;
      InOrderAtEnd(s.world, row);
      InsertKeepsInvariant(s.world, row);
      EventMatchesWrite(s.users, change);
      HistoryExtends(s.history, s.world.rows, row);
    }
  }

  ghost predicate Records(history: seq<Users>, rows: seq<Row>) {
    && |history| == |rows| + 1
    && forall i | 0 <= i <= |rows| :: history[i] == Replay(history[0], rows[..i])
  }

  lemma HistoryExtends(history: seq<Users>, rows: seq<Row>, row: Row)
    requires Records(history, rows)
    ensures Records(history + [Apply(history[|rows|], row.event)], rows + [row])
  {
    var history' := history + [Apply(history[|rows|], row.event)];
    ReplayExtends(history[0], rows, row);
    assert rows[..|rows|] == rows;
    forall i | 0 <= i <= |rows| + 1
      ensures history'[i] == Replay(history'[0], (rows + [row])[..i])
    {
      if i <= |rows| {
        assert (rows + [row])[..i] == rows[..i];
      } else {
        assert (rows + [row])[..i] == rows + [row];
      }
    }
  }

  // A row later than all others goes last, and overtakes nobody.
  lemma InOrderAtEnd(w: World, row: Row)
    requires Inv(w) && forall r | r in w.rows :: r.at < row.at
    ensures InOrder(w, row) && InsertSorted(w.rows, row) == w.rows + [row]
  {
  }

  lemma SysStepKeepsInvariant(s: Sys, e: SysEvent)
    requires SysInv(s) && CommitOrder(s, e)
    ensures SysInv(SysStep(s, e)) && s.history <= SysStep(s, e).history
  {
    hide Inv, Written, CanInsert, CommitOrder;
    match e
    case Transact(change, id, at) => TransactionKeepsHistory(s, change, id, at);
    case Relayed(event) =>
      if !event.Insert? {
        StepKeepsInvariant(s.world, event);
      }
  }

  // Over every run of transactions and relays: what a consumer of the published
  // messages holds is the users table as it was at some point, and the table as
  // it is once nothing is pending. The recorded past never changes.
  lemma {:induction false} ConsumersHoldAPastState(s: Sys, events: seq<SysEvent>)
    requires SysInv(s) && InCommitOrder(s, events)
    ensures var end := SysRun(s, events);
      && SysInv(end) && s.history <= end.history
      && |end.world.stream| < |end.history|
      && Replay(s.history[0], end.world.stream) == end.history[|end.world.stream|]
      && (Pending(end.world.rows, end.world.marked) == [] ==> Replay(s.history[0], end.world.stream) == end.users)
    decreases |events|
  {
    if events != [] {
      SysStepKeepsInvariant(s, events[0]);
      ConsumersHoldAPastState(SysStep(s, events[0]), events[1..]);
      assert SysStep(s, events[0]).history[0] == s.history[0];
    } else {
      var w := s.world;
      assert w.stream == w.rows[..|w.stream|];
      if Pending(w.rows, w.marked) == [] {
        DrainedMeansPublished(w);
      }
    }
  }

  lemma DrainedMeansPublished(w: World)
    requires Inv(w) && Pending(w.rows, w.marked) == []
    ensures w.stream == w.rows
  {
    NextIsUnpublished(w);
    forall r | r in w.rows
      ensures r in w.stream
    {
      var q :| q in w.stream && q.id == r.id;
      SameId(w.rows, q, r);
    }
    assert forall j | 0 <= j < |w.rows| :: w.rows[j] in w.rows && w.rows[j] in w.stream;
  }

  // From an empty outbox: a change that succeeds is written and recorded, and one
  // pass of a relay brings it to the consumers.
  lemma ChangeReachesConsumers(users: Users, c: Change, id: nat, at: int, k: nat)
    requires Succeeds(users, c)
    ensures var start := Sys(users, [users], World([], {}, [], map[]));
            var events := [Transact(c, id, at), Relayed(Fetch(k)), Relayed(Publish(k)), Relayed(Mark(k))];
            var end := SysRun(start, events);
            && end.users == Written(users, c) && end.history == [users, Written(users, c)]
            && end.world == World([Row(id, at, EventOf(c))], {id}, [Row(id, at, EventOf(c))], map[])
            && Replay(users, end.world.stream) == end.users
  {
    var row := Row(id, at, EventOf(c));
    var start := Sys(users, [users], World([], {}, [], map[]));
    var e := [Transact(c, id, at), Relayed(Fetch(k)), Relayed(Publish(k)), Relayed(Mark(k))];
    var s1 := SysStep(start, e[0]);
    assert s1 == Sys(Written(users, c), [users, Written(users, c)], World([row], {}, [], map[]));
    OneRowPublished(row, k);
    var s2 := SysStep(s1, e[1]);
    var s3 := SysStep(s2, e[2]);
    var s4 := SysStep(s3, e[3]);
    EventMatchesWrite(users, c);
    ReplayExtends(users, [], row);
    assert [] + [row] == [row];
    hide SysStep, Written, Apply;
    assert e[1..][1..] == e[2..] && e[2..][1..] == e[3..] && e[3..][1..] == [];
    assert SysRun(start, e) == SysRun(s1, e[1..]) && SysRun(s1, e[1..]) == SysRun(s2, e[2..]);
    assert SysRun(s2, e[2..]) == SysRun(s3, e[3..]) && SysRun(s3, e[3..]) == SysRun(s4, []);
  }

  lemma OneRowPublished(row: Row, k: nat)
    ensures var w := World([row], {}, [], map[]);
            Step(Step(Step(w, Fetch(k)), Publish(k)), Mark(k)) == World([row], {row.id}, [row], map[])
  {
    assert Pending([row], {}) == [row] by {
      assert [row][1..] == [];
    }
    var w1 := Step(World([row], {}, [], map[]), Fetch(k));
    assert w1.relays == map[k := Publishing([row])];
    assert Step(w1, Publish(k)).relays - {k} == map[];
  }
}
