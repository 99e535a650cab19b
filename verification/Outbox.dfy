// The transactional outbox and its relays. Any number of relays fetch, publish
// and mark in interleaved steps and may stop anywhere; the stream drops a message
// whose id it has seen. The published messages are a prefix of the outbox.
module Outbox {
  import opened Sql

  const BATCH_LIMIT := 100

  datatype UserEvent =
    | Registered(user: Uuid, email: string)
    | Deleted(user: Uuid, hard: bool)
    | Restored(user: Uuid)

  datatype Row = Row(id: nat, at: int, event: UserEvent)

  // A relay between drains, about to publish the first row of its batch, or about
  // to mark it.
  datatype Relay = Publishing(batch: seq<Row>) | Marking(batch: seq<Row>)

  // The rows are kept in created_at order, the order every fetch returns them in;
  // relays that are between drains are absent.
  datatype World = World(rows: seq<Row>, marked: set<nat>, stream: seq<Row>, relays: map<nat, Relay>)

  datatype Event =
    | Insert(row: Row)
    | Fetch(relay: nat)
    | Publish(relay: nat)
    | PublishFailed(relay: nat, stored: bool)   // no acknowledgement: stored or lost
    | Mark(relay: nat)
    | Crash(relay: nat)

  // ── Steps ─────────────────────────────────────────────────

  function Ids(rows: seq<Row>): set<nat> {
    set r | r in rows :: r.id
  }

  // WHERE published_at IS NULL ORDER BY created_at.
  function Pending(rows: seq<Row>, marked: set<nat>): (pending: seq<Row>)
    ensures forall r | r in pending :: r in rows && r.id !in marked
    ensures forall r | r in rows && r.id !in marked :: r in pending
  {
    if rows == [] then []
    else if rows[0].id in marked then Pending(rows[1..], marked)
    else [rows[0]] + Pending(rows[1..], marked)
  }

  function Take(rows: seq<Row>, limit: nat): seq<Row> {
    if |rows| <= limit then rows else rows[..limit]
  }

  // The message id is the row id; the server keeps the first copy.
  function Deliver(stream: seq<Row>, row: Row): seq<Row> {
    if row.id in Ids(stream) then stream else stream + [row]
  }

  // Where a row of this time belongs.
  function Position(rows: seq<Row>, at: int): (i: nat)
    ensures i <= |rows|
    ensures forall j | 0 <= j < i :: rows[j].at <= at
    ensures i < |rows| ==> at < rows[i].at
  {
    if rows == [] || at < rows[0].at then 0 else 1 + Position(rows[1..], at)
  }

  function InsertSorted(rows: seq<Row>, row: Row): seq<Row> {
    var i := Position(rows, row.at);
    rows[..i] + [row] + rows[i..]
  }

  predicate CanInsert(w: World, row: Row) {
    row.id !in Ids(w.rows) && forall r | r in w.rows :: r.at != row.at
  }

  function Step(w: World, e: Event): World {
    match e
    case Insert(row) => if CanInsert(w, row) then w.(rows := InsertSorted(w.rows, row)) else w
    case Fetch(k) =>
      var batch := Take(Pending(w.rows, w.marked), BATCH_LIMIT);
      if k in w.relays || batch == [] then w else w.(relays := w.relays[k := Publishing(batch)])
    case Publish(k) =>
      if k in w.relays && w.relays[k].Publishing? && w.relays[k].batch != [] then
        w.(stream := Deliver(w.stream, w.relays[k].batch[0]), relays := w.relays[k := Marking(w.relays[k].batch)])
      else w
    case PublishFailed(k, stored) =>
      if k in w.relays && w.relays[k].Publishing? && w.relays[k].batch != [] then
        w.(stream := if stored then Deliver(w.stream, w.relays[k].batch[0]) else w.stream, relays := w.relays - {k})
      else w
    case Mark(k) =>
      if k in w.relays && w.relays[k].Marking? && w.relays[k].batch != [] then
        var batch := w.relays[k].batch;
        w.(marked := w.marked + {batch[0].id},
           relays := if |batch| == 1 then w.relays - {k} else w.relays[k := Publishing(batch[1..])])
      else w
    case Crash(k) => w.(relays := w.relays - {k})
  }

  function Run(w: World, events: seq<Event>): World
    decreases |events|
  {
    if events == [] then w else Run(Step(w, events[0]), events[1..])
  }

  lemma {:induction false} RunAppends(w: World, first: seq<Event>, second: seq<Event>)
    ensures Run(w, first + second) == Run(Run(w, first), second)
    decreases |first|
  {
    if first == [] {
      assert first + second == second;
    } else {
      assert (first + second)[1..] == first[1..] + second;
      RunAppends(Step(w, first[0]), first[1..], second);
    }
  }

  // ── The invariant ─────────────────────────────────────────

  predicate Ascending(rows: seq<Row>) {
    forall i, j | 0 <= i < j < |rows| :: rows[i].at < rows[j].at
  }

  predicate UniqueIds(rows: seq<Row>) {
    forall i, j | 0 <= i < |rows| && 0 <= j < |rows| && rows[i].id == rows[j].id :: i == j
  }

  predicate Sorted(rows: seq<Row>) {
    Ascending(rows) && UniqueIds(rows)
  }

  predicate IsPrefix(w: World) {
    w.stream <= w.rows
  }

  // Every row ordered before one of the batch is published or comes earlier in
  // the same batch.
  predicate Claims(w: World, batch: seq<Row>) {
    && (forall b | b in batch :: b in w.rows)
    && (forall r, j | r in w.rows && 0 <= j < |batch| && r.at < batch[j].at :: r in w.stream || r in batch[..j])
  }

  predicate RelayOk(w: World, relay: Relay) {
    && relay.batch != []
    && Claims(w, relay.batch)
    && (relay.Marking? ==> relay.batch[0] in w.stream)
  }

  ghost predicate Inv(w: World) {
    && Sorted(w.rows)
    && IsPrefix(w)
    && w.marked <= Ids(w.stream)
    && forall k | k in w.relays :: RelayOk(w, w.relays[k])
  }

  lemma InitIsOk(rows: seq<Row>)
    requires Sorted(rows)
    ensures Inv(World(rows, {}, [], map[]))
  {
  }

  // An insert is in order when it comes after every row published or fetched.
  // Commits in created_at order always are.
  ghost predicate InOrder(w: World, row: Row) {
    && (forall r | r in w.stream :: r.at < row.at)
    && (forall k, b | k in w.relays && b in w.relays[k].batch :: b.at < row.at)
  }

  ghost predicate EventOk(w: World, e: Event) {
    e.Insert? && CanInsert(w, e.row) ==> InOrder(w, e.row)
  }

  // ── Preservation ──────────────────────────────────────────

  lemma InsertKeepsSorted(rows: seq<Row>, row: Row)
    requires Sorted(rows) && row.id !in Ids(rows) && forall r | r in rows :: r.at != row.at
    ensures Sorted(InsertSorted(rows, row))
  {
    hide UniqueIds, Ascending;
    InsertKeepsAscending(rows, row);
    InsertKeepsUnique(rows, row);
  }

  lemma InsertKeepsAscending(rows: seq<Row>, row: Row)
    requires Ascending(rows) && forall r | r in rows :: r.at != row.at
    ensures Ascending(InsertSorted(rows, row))
  {
  }

  lemma InsertKeepsUnique(rows: seq<Row>, row: Row)
    requires UniqueIds(rows) && row.id !in Ids(rows)
    ensures UniqueIds(InsertSorted(rows, row))
  {
  }

  lemma InsertKeepsRows(rows: seq<Row>, row: Row)
    ensures forall r :: r in InsertSorted(rows, row) <==> r == row || r in rows
  {
  }

  lemma InsertKeepsInvariant(w: World, row: Row)
    requires Inv(w) && CanInsert(w, row) && InOrder(w, row)
    ensures Inv(Step(w, Insert(row)))
  {
    var w' := Step(w, Insert(row));
    var i, n := Position(w.rows, row.at), |w.stream|;
    InsertKeepsSorted(w.rows, row);
    InsertKeepsRows(w.rows, row);
    assert forall j | 0 <= j < n :: w.stream[j] in w.stream && w.stream[j] == w.rows[j];
    assert w.rows[..i][..n] == w.rows[..n];
    assert w'.rows[..n] == w.rows[..n] == w.stream;
    forall k | k in w'.relays
      ensures RelayOk(w', w'.relays[k])
    {
      assert RelayOk(w, w.relays[k]);
      forall r, j | r in w'.rows && 0 <= j < |w.relays[k].batch| && r.at < w.relays[k].batch[j].at
        ensures r in w'.stream || r in w.relays[k].batch[..j]
      {
        assert w.relays[k].batch[j] in w.relays[k].batch;
      }
    }
  }

  lemma {:induction false} PendingKeepsOrder(rows: seq<Row>, marked: set<nat>)
    requires Ascending(rows)
    ensures Ascending(Pending(rows, marked))
  {
    if rows != [] {
      PendingKeepsOrder(rows[1..], marked);
      assert forall r | r in rows[1..] :: rows[0].at < r.at;
      var rest := Pending(rows[1..], marked);
      assert forall j | 0 <= j < |rest| :: rest[j] in rest;
    }
  }

  lemma FetchKeepsInvariant(w: World, k: nat)
    requires Inv(w)
    ensures Inv(Step(w, Fetch(k)))
  {
    var pending := Pending(w.rows, w.marked);
    var batch := Take(pending, BATCH_LIMIT);
    PendingKeepsOrder(w.rows, w.marked);
    forall r, j | r in w.rows && 0 <= j < |batch| && r.at < batch[j].at
      ensures r in w.stream || r in batch[..j]
    {
      if r.id in w.marked {
        var q :| q in w.stream && q.id == r.id;
        SameId(w.rows, q, r);
      } else {
        var i :| 0 <= i < |pending| && pending[i] == r;
        assert i < j;
        assert batch[..j][i] == r;
      }
    }
  }

  lemma SameId(rows: seq<Row>, q: Row, r: Row)
    requires Sorted(rows) && q in rows && r in rows && q.id == r.id
    ensures q == r
  {
  }

  // The heart of the matter: a relay delivers either a row already there or the
  // very next one.
  lemma DeliverExtendsPrefix(w: World, batch: seq<Row>)
    requires Inv(w) && batch != [] && Claims(w, batch)
    ensures var stream := Deliver(w.stream, batch[0]);
      stream <= w.rows && batch[0] in stream && w.stream <= stream
  {
    var row, n := batch[0], |w.stream|;
    assert row in batch;
    var i :| 0 <= i < |w.rows| && w.rows[i] == row;
    if row.id in Ids(w.stream) {
      var q :| q in w.stream && q.id == row.id;
      SameId(w.rows, q, row);
    } else {
      assert forall j | 0 <= j < n :: w.stream[j] in w.stream && w.stream[j] == w.rows[j];
      assert forall r | r in w.rows && r.at < batch[0].at :: r in w.stream || r in batch[..0];
      NextIsUnpublished(w);
      assert Deliver(w.stream, row) == w.rows[..n + 1];
    }
  }

  lemma NextIsUnpublished(w: World)
    requires Sorted(w.rows) && IsPrefix(w)
    ensures |w.stream| < |w.rows| ==> w.rows[|w.stream|] !in w.stream
  {
  }

  lemma GrownStreamKeepsRelays(w: World, w': World, relay: Relay)
    requires RelayOk(w, relay) && w'.rows == w.rows && w.stream <= w'.stream
    ensures RelayOk(w', relay)
  {
  }

  lemma DeliverKeepsInvariant(w: World, w': World, k: nat)
    requires Inv(w) && k in w.relays
    requires w'.rows == w.rows && w'.marked == w.marked
    requires w'.stream == w.stream || w'.stream == Deliver(w.stream, w.relays[k].batch[0])
    requires w'.relays == w.relays - {k} || (
      w'.stream == Deliver(w.stream, w.relays[k].batch[0]) && w'.relays == w.relays[k := Marking(w.relays[k].batch)])
    ensures Inv(w')
  {
    var batch := w.relays[k].batch;
    assert RelayOk(w, w.relays[k]);
    DeliverExtendsPrefix(w, batch);
    assert forall r | r in w.stream :: r in w'.stream;
    forall q | q in w'.relays
      ensures RelayOk(w', w'.relays[q])
    {
      if q != k {
        GrownStreamKeepsRelays(w, w', w.relays[q]);
      } else {
        GrownStreamKeepsRelays(w, w', w.relays[k]);
      }
    }
  }

  lemma MarkKeepsInvariant(w: World, k: nat)
    requires Inv(w) && k in w.relays && w.relays[k].Marking?
    ensures Inv(Step(w, Mark(k)))
  {
  }

  lemma StepKeepsInvariant(w: World, e: Event)
    requires Inv(w) && EventOk(w, e)
    ensures Inv(Step(w, e)) && w.stream <= Step(w, e).stream
  {
    match e
    case Insert(row) => if CanInsert(w, row) { InsertKeepsInvariant(w, row); }
    case Fetch(k) => FetchKeepsInvariant(w, k);
    case Publish(k) =>
      if k in w.relays && w.relays[k].Publishing? {
        DeliverKeepsInvariant(w, Step(w, e), k);
      }
    case PublishFailed(k, stored) =>
      if k in w.relays && w.relays[k].Publishing? { DeliverKeepsInvariant(w, Step(w, e), k); }
    case Mark(k) => if k in w.relays && w.relays[k].Marking? { MarkKeepsInvariant(w, k); }
    case Crash(k) =>
      forall q | q in Step(w, e).relays
        ensures RelayOk(Step(w, e), w.relays[q])
      {
        GrownStreamKeepsRelays(w, Step(w, e), w.relays[q]);
      }
  }

  ghost predicate RunOk(w: World, events: seq<Event>)
    decreases |events|
  {
    events == [] || (EventOk(w, events[0]) && RunOk(Step(w, events[0]), events[1..]))
  }

  // Over every run whose rows arrive in order of created_at: what was published is a
  // prefix of the outbox, it only grows, and every marked row is in it.
  lemma {:induction false} PublishedIsAPrefix(w: World, events: seq<Event>)
    requires Inv(w) && RunOk(w, events)
    ensures Inv(Run(w, events))
    ensures Run(w, events).stream <= Run(w, events).rows
    ensures w.stream <= Run(w, events).stream
    ensures forall r | r in Run(w, events).rows && r.id in Run(w, events).marked :: r in Run(w, events).stream
    decreases |events|
  {
    if events != [] {
      StepKeepsInvariant(w, events[0]);
      PublishedIsAPrefix(Step(w, events[0]), events[1..]);
    }
    var w' := Run(w, events);
    assert Inv(w') by { if events == [] { assert w' == w; } }
    forall r | r in w'.rows && r.id in w'.marked
      ensures r in w'.stream
    {
      var q :| q in w'.stream && q.id == r.id;
      SameId(w'.rows, q, r);
    }
  }
}
