// Whole drains: what one pass of the relay loop does when nothing fails, how many
// passes empty the outbox, and exactly which inserts keep the published prefix.
module OutboxDrain {
  import opened Outbox

  function DeliverAll(stream: seq<Row>, batch: seq<Row>): seq<Row>
    decreases |batch|
  {
    if batch == [] then stream else DeliverAll(Deliver(stream, batch[0]), batch[1..])
  }

  // Publish and mark, once per row.
  function DrainEvents(relay: nat, n: nat): seq<Event> {
    if n == 0 then [] else [Publish(relay), Mark(relay)] + DrainEvents(relay, n - 1)
  }

  lemma IdsOfConcat(a: seq<Row>, b: seq<Row>)
    ensures Ids(a + b) == Ids(a) + Ids(b)
  {
  }

  lemma {:induction false} DeliverAllIds(stream: seq<Row>, batch: seq<Row>)
    ensures Ids(DeliverAll(stream, batch)) == Ids(stream) + Ids(batch)
    decreases |batch|
  {
    if batch != [] {
      DeliverAllIds(Deliver(stream, batch[0]), batch[1..]);
      assert batch == [batch[0]] + batch[1..];
    }
  }

  lemma {:induction false} DeliverAllExtend(stream: seq<Row>, batch: seq<Row>, row: Row)
    ensures DeliverAll(stream, batch + [row]) == Deliver(DeliverAll(stream, batch), row)
    decreases |batch|
  {
    if batch == [] {
      assert DeliverAll(stream, [row]) == DeliverAll(Deliver(stream, row), []);
    } else {
      assert (batch + [row])[1..] == batch[1..] + [row];
      DeliverAllExtend(Deliver(stream, batch[0]), batch[1..], row);
    }
  }

  lemma RowDrained(w: World, k: nat)
    requires k in w.relays && w.relays[k].Publishing? && w.relays[k].batch != []
    ensures var batch := w.relays[k].batch;
      Step(Step(w, Publish(k)), Mark(k)) == World(w.rows, w.marked + {batch[0].id}, Deliver(w.stream, batch[0]),
        if |batch| == 1 then w.relays - {k} else w.relays[k := Publishing(batch[1..])])
  {
    hide Deliver;
    var w1 := Step(w, Publish(k));
    assert w1.relays - {k} == w.relays - {k};
  }

  // A relay left alone with its batch publishes and marks all of it.
  lemma {:induction false} DrainCompletes(w: World, k: nat)
    requires k in w.relays && w.relays[k].Publishing? && w.relays[k].batch != []
    ensures var batch := w.relays[k].batch;
      Run(w, DrainEvents(k, |batch|)) ==
        World(w.rows, w.marked + Ids(batch), DeliverAll(w.stream, batch), w.relays - {k})
    decreases |w.relays[k].batch|
  {
    hide Step, Deliver;
    var batch := w.relays[k].batch;
    var events := DrainEvents(k, |batch|);
    var w1 := Step(w, Publish(k));
    var w2 := Step(w1, Mark(k));
    RowDrained(w, k);
    assert events[0] == Publish(k) && events[1..][0] == Mark(k) && events[1..][1..] == DrainEvents(k, |batch| - 1);
    assert Run(w, events) == Run(w2, DrainEvents(k, |batch| - 1));
    assert batch == [batch[0]] + batch[1..];
    assert Ids(batch) == {batch[0].id} + Ids(batch[1..]);
    if |batch| == 1 {
      assert batch[1..] == [];
    } else {
      DrainCompletes(w2, k);
      assert w2.relays - {k} == w.relays - {k};
      assert w2.marked + Ids(batch[1..]) == w.marked + Ids(batch);
    }
  }

  // ── How far one pass gets ─────────────────────────────────

  lemma {:induction false} PendingIgnores(rows: seq<Row>, marked: set<nat>, id: nat)
    requires id !in Ids(rows)
    ensures Pending(rows, marked + {id}) == Pending(rows, marked)
  {
    if rows != [] {
      assert rows[0] in rows && rows[0].id in Ids(rows);
      PendingIgnores(rows[1..], marked, id);
    }
  }

  // Marking the first n pending rows leaves the others pending, in order.
  lemma {:induction false} PendingAfterMarks(rows: seq<Row>, marked: set<nat>, n: nat)
    requires UniqueIds(rows) && n <= |Pending(rows, marked)|
    ensures Pending(rows, marked + Ids(Pending(rows, marked)[..n])) == Pending(rows, marked)[n..]
  {
    var pending := Pending(rows, marked);
    if n == 0 {
      assert marked + Ids(pending[..0]) == marked;
    } else {
      TailIsUnique(rows);
      hide UniqueIds;
      if rows[0].id in marked {
        PendingAfterMarks(rows[1..], marked, n);
      } else {
        var rest := Pending(rows[1..], marked);
        PendingAfterMarks(rows[1..], marked, n - 1);
        assert pending[..n] == [rows[0]] + rest[..n - 1];
        assert marked + Ids(pending[..n]) == (marked + Ids(rest[..n - 1])) + {rows[0].id};
        PendingIgnores(rows[1..], marked + Ids(rest[..n - 1]), rows[0].id);
      }
    }
  }

  lemma TailIsUnique(rows: seq<Row>)
    requires UniqueIds(rows) && rows != []
    ensures UniqueIds(rows[1..]) && rows[0].id !in Ids(rows[1..])
  {
    forall r | r in rows[1..]
      ensures r.id != rows[0].id
    {
      var j :| 0 <= j < |rows[1..]| && rows[1..][j] == r;
      assert rows[j + 1] == r;
    }
  }

  function Min(a: nat, b: nat): nat {
    if a <= b then a else b
  }

  // The database and the stream as one relay process sees them.
  class Pipe {
    var rows: seq<Row>
    var marked: set<nat>
    var stream: seq<Row>

    constructor (rows: seq<Row>)
      requires Sorted(rows)
      ensures this.rows == rows && marked == {} && stream == []
    {
      this.rows, marked, stream := rows, {}, [];
    }

    // One pass: at most a batch of the oldest pending rows, each published and
    // then marked.
    method Drain()
      requires Sorted(rows)
      modifies this`marked, this`stream
      ensures var batch := Take(old(Pending(rows, marked)), BATCH_LIMIT);
        && stream == DeliverAll(old(stream), batch)
        && marked == old(marked) + Ids(batch)
        && Pending(rows, marked) == old(Pending(rows, marked))[|batch|..]
    {
      hide Pending, Ascending, UniqueIds, Deliver;
      ghost var pending := Pending(rows, marked);
      var batch := Take(Pending(rows, marked), BATCH_LIMIT);
      for i := 0 to |batch|
        invariant marked == old(marked) + Ids(batch[..i])
        invariant stream == DeliverAll(old(stream), batch[..i])
      {
        DeliverAllExtend(old(stream), batch[..i], batch[i]);
        assert batch[..i + 1] == batch[..i] + [batch[i]];
        IdsOfConcat(batch[..i], [batch[i]]);
        stream := Deliver(stream, batch[i]);
        marked := marked + {batch[i].id};
      }
      assert batch[..|batch|] == batch && batch == pending[..|batch|];
      PendingAfterMarks(rows, old(marked), |batch|);
    }

    // Nothing stays pending exactly when the passes cover the backlog; until then
    // the oldest rows are done and the rest wait in order.
    method DrainTimes(times: nat)
      requires Sorted(rows)
      modifies this`marked, this`stream
      ensures var backlog := old(Pending(rows, marked));
        && Pending(rows, marked) == backlog[Covered(backlog, times)..]
        && (Pending(rows, marked) == [] <==> |backlog| <= 100 * times)
        && marked == old(marked) + Ids(backlog[..Covered(backlog, times)])
        && Ids(stream) == Ids(old(stream)) + Ids(backlog[..Covered(backlog, times)])
    {
      ghost var backlog := Pending(rows, marked);
      for i := 0 to times
        invariant Pending(rows, marked) == backlog[Covered(backlog, i)..]
        invariant marked == old(marked) + Ids(backlog[..Covered(backlog, i)])
        invariant Ids(stream) == Ids(old(stream)) + Ids(backlog[..Covered(backlog, i)])
      {
        ghost var before := stream;
        ghost var batch := Take(Pending(rows, marked), BATCH_LIMIT);
        OnePassFurther(backlog, i);
        Drain();
        DeliverAllIds(before, batch);
      }
    }
  }

  // Rows done after so many passes.
  function Covered(backlog: seq<Row>, passes: nat): nat {
    Min(BATCH_LIMIT * passes, |backlog|)
  }

  lemma OnePassFurther(backlog: seq<Row>, passes: nat)
    ensures var done, done' := Covered(backlog, passes), Covered(backlog, passes + 1);
      var batch := Take(backlog[done..], BATCH_LIMIT);
      && backlog[done..][|batch|..] == backlog[done'..]
      && Ids(backlog[..done']) == Ids(backlog[..done]) + Ids(batch)
  {
  }

  // The loop of Drain is a run of the relay machine.
  lemma FaultFreePass(w: World, k: nat)
    requires k !in w.relays && Pending(w.rows, w.marked) != []
    ensures var batch := Take(Pending(w.rows, w.marked), BATCH_LIMIT);
      Run(w, [Fetch(k)] + DrainEvents(k, |batch|)) ==
        w.(marked := w.marked + Ids(batch), stream := DeliverAll(w.stream, batch))
  {
    hide Pending, Deliver, DeliverAll;
    var batch := Take(Pending(w.rows, w.marked), BATCH_LIMIT);
    var events := [Fetch(k)] + DrainEvents(k, |batch|);
    assert events[1..] == DrainEvents(k, |batch|);
    var w1 := Step(w, Fetch(k));
    assert w1 == w.(relays := w.relays[k := Publishing(batch)]);
    DrainCompletes(w1, k);
    hide Step, DrainEvents;
    assert w1.relays - {k} == w.relays;
    assert Run(w, events) == Run(w1, events[1..]);
  }

  // One whole drain by a relay, and one after the other by relays that take turns.
  function Pass(w: World, k: nat): seq<Event> {
    [Fetch(k)] + DrainEvents(k, |Take(Pending(w.rows, w.marked), BATCH_LIMIT)|)
  }

  function Passes(w: World, turns: seq<nat>): seq<Event>
    decreases |turns|
  {
    if turns == [] then [] else Pass(w, turns[0]) + Passes(Run(w, Pass(w, turns[0])), turns[1..])
  }

  lemma PassEffect(w: World, k: nat)
    requires k !in w.relays
    ensures var batch := Take(Pending(w.rows, w.marked), BATCH_LIMIT);
            Run(w, Pass(w, k)) == w.(marked := w.marked + Ids(batch), stream := DeliverAll(w.stream, batch))
  {
    var batch := Take(Pending(w.rows, w.marked), BATCH_LIMIT);
    if batch == [] {
      assert Pass(w, k)[1..] == [] && Step(w, Fetch(k)) == w;
      assert w.marked + Ids(batch) == w.marked;
    } else {
      FaultFreePass(w, k);
    }
  }

  // A pass broken off at a row, by a publish that was not acknowledged or by a crash
  // before the mark, is made up for by the next: the stream drops a second copy.
  lemma BrokenPassIsMadeUpFor(w: World, k: nat, q: nat, stored: bool)
    requires k !in w.relays && q !in w.relays && Pending(w.rows, w.marked) != []
    ensures var first := Pending(w.rows, w.marked)[0];
            var failed := Run(w, [Fetch(k), PublishFailed(k, stored)]);
            var crashed := Run(w, [Fetch(k), Publish(k), Crash(k)]);
            && failed == w.(stream := if stored then Deliver(w.stream, first) else w.stream)
            && crashed == w.(stream := Deliver(w.stream, first))
            && Run(failed, Pass(failed, q)) == Run(w, Pass(w, q))
            && Run(crashed, Pass(crashed, q)) == Run(w, Pass(w, q))
  {
    var batch := Take(Pending(w.rows, w.marked), BATCH_LIMIT);
    BrokenOff(w, k, stored);
    PassEffect(w, q);
    PassEffect(w.(stream := Deliver(w.stream, batch[0])), q);
    hide Step, Pass, Pending, Ids;
    AgainIsOnce(w.stream, batch);
  }

  lemma AgainIsOnce(stream: seq<Row>, batch: seq<Row>)
    requires batch != []
    ensures DeliverAll(Deliver(stream, batch[0]), batch) == DeliverAll(stream, batch)
  {
    assert Deliver(Deliver(stream, batch[0]), batch[0]) == Deliver(stream, batch[0]);
  }

  lemma BrokenOff(w: World, k: nat, stored: bool)
    requires k !in w.relays && Pending(w.rows, w.marked) != []
    ensures var first := Take(Pending(w.rows, w.marked), BATCH_LIMIT)[0];
            && Run(w, [Fetch(k), PublishFailed(k, stored)]) ==
                 w.(stream := if stored then Deliver(w.stream, first) else w.stream)
            && Run(w, [Fetch(k), Publish(k), Crash(k)]) == w.(stream := Deliver(w.stream, first))
  {
    hide Pending, Deliver;
    var batch := Take(Pending(w.rows, w.marked), BATCH_LIMIT);
    var w1 := Step(w, Fetch(k));
    assert w1 == w.(relays := w.relays[k := Publishing(batch)]);
    var w2 := Step(w1, Publish(k));
    var failed, crashed := Step(w1, PublishFailed(k, stored)), Step(w2, Crash(k));
    assert w1.relays - {k} == w.relays && w2.relays - {k} == w.relays;
    hide Step;
    assert [Fetch(k), PublishFailed(k, stored)][1..] == [PublishFailed(k, stored)];
    assert Run(w1, [PublishFailed(k, stored)]) == Run(failed, []);
    assert [Fetch(k), Publish(k), Crash(k)][1..] == [Publish(k), Crash(k)] && [Publish(k), Crash(k)][1..] == [Crash(k)];
    assert Run(w1, [Publish(k), Crash(k)]) == Run(w2, [Crash(k)]);
    assert Run(w2, [Crash(k)]) == Run(crashed, []);
  }

  // Whoever takes the turns, among relays that hold batches or not: nothing stays
  // pending exactly when the drains cover the backlog, a hundred rows each; until
  // then the oldest rows are published and marked and the rest wait in order.
  lemma {:induction false} PassesCover(w: World, turns: seq<nat>)
    requires UniqueIds(w.rows) && forall k | k in turns :: k !in w.relays
    ensures var backlog, end := Pending(w.rows, w.marked), Run(w, Passes(w, turns));
            var done := Covered(backlog, |turns|);
            && end.rows == w.rows && end.relays == w.relays
            && Pending(end.rows, end.marked) == backlog[done..]
            && (Pending(end.rows, end.marked) == [] <==> |backlog| <= 100 * |turns|)
            && end.marked == w.marked + Ids(backlog[..done])
            && Ids(end.stream) == Ids(w.stream) + Ids(backlog[..done])
    decreases |turns|
  {
    hide Step, Pending, Pass, Passes, UniqueIds, Covered, Take, Deliver, DeliverAll;
    var backlog := Pending(w.rows, w.marked);
    CoveredAddsUp(backlog, |turns|);
    if turns == [] {
      NoPasses(w);
      assert w.marked + Ids(backlog[..0]) == w.marked;
    } else {
      var w1 := Run(w, Pass(w, turns[0]));
      var batch := Take(backlog, BATCH_LIMIT);
      PassEffect(w, turns[0]);
      PendingAfterMarks(w.rows, w.marked, |batch|);
      assert forall k | k in turns[1..] :: k in turns;
      PassesStart(w, turns);
      PassesCover(w1, turns[1..]);
      DeliverAllIds(w.stream, batch);
    }
  }

  lemma NoPasses(w: World)
    ensures Run(w, Passes(w, [])) == w
  {
  }

  lemma PassesStart(w: World, turns: seq<nat>)
    requires turns != []
    ensures var w1 := Run(w, Pass(w, turns[0]));
            Run(w, Passes(w, turns)) == Run(w1, Passes(w1, turns[1..]))
  {
    hide Step, Pending, Pass;
    var w1 := Run(w, Pass(w, turns[0]));
    RunAppends(w, Pass(w, turns[0]), Passes(w1, turns[1..]));
  }

  lemma CoveredAddsUp(backlog: seq<Row>, passes: nat)
    ensures var done, batch := Covered(backlog, passes), Take(backlog, BATCH_LIMIT);
            && done <= |backlog| && batch == backlog[..|batch|] && |batch| <= |backlog|
            && (backlog[done..] == [] <==> |backlog| <= BATCH_LIMIT * passes)
            && (passes == 0 ==> done == 0 && backlog[done..] == backlog && Ids(backlog[..done]) == {})
            && (passes > 0 ==>
                  var rest := backlog[|batch|..];
                  var done' := Covered(rest, passes - 1);
                  && rest[done'..] == backlog[done..]
                  && Ids(backlog[..done]) == Ids(batch) + Ids(rest[..done']))
  {
    var done, batch := Covered(backlog, passes), Take(backlog, BATCH_LIMIT);
    if passes > 0 {
      var rest := backlog[|batch|..];
      var done' := Covered(rest, passes - 1);
      assert done == |batch| + done';
      assert backlog[..done] == batch + rest[..done'];
      IdsOfConcat(batch, rest[..done']);
    }
  }

  // ── Exactly which inserts keep the prefix ─────────────────

  predicate NoInserts(events: seq<Event>) {
    forall e | e in events :: !e.Insert?
  }

  lemma {:induction false} NoInsertsIsOk(w: World, events: seq<Event>)
    requires NoInserts(events)
    ensures RunOk(w, events)
    decreases |events|
  {
    if events != [] {
      assert events[0] in events;
      NoInsertsIsOk(Step(w, events[0]), events[1..]);
    }
  }

  // A prefix that holds a row holds all rows before it.
  lemma PrefixHasNoGap(rows: seq<Row>, stream: seq<Row>, earlier: Row, later: Row)
    requires Sorted(rows) && stream <= rows
    requires earlier in rows && later in rows && earlier.at < later.at
    ensures later.id in Ids(stream) ==> earlier.id in Ids(stream)
  {
  }

  // An insert before a row some relay has already taken up leads to a gap: that
  // relay only has to finish its batch.
  lemma LateInsertCanBreak(w: World, row: Row) returns (events: seq<Event>)
    requires Inv(w) && CanInsert(w, row) && !InOrder(w, row)
    ensures NoInserts(events) && !IsPrefix(Run(Step(w, Insert(row)), events))
  {
    var w' := Step(w, Insert(row));
    InsertKeepsSorted(w.rows, row);
    InsertKeepsRows(w.rows, row);
    var later: Row;
    if r :| r in w.stream && row.at <= r.at {
      events, later := [], r;
    } else {
      var k, b :| k in w.relays && b in w.relays[k].batch && row.at <= b.at;
      events := FinishBatch(w', w, k);
      later := b;
    }
    var end := Run(w', events);
    if IsPrefix(end) {
      PrefixHasNoGap(end.rows, end.stream, row, later);
    }
  }

  // The relay finishes what it has fetched and nothing else.
  lemma FinishBatch(w: World, before: World, k: nat) returns (events: seq<Event>)
    requires Inv(before) && w == before.(rows := w.rows) && k in w.relays
    ensures NoInserts(events) && Run(w, events).rows == w.rows
    ensures Ids(Run(w, events).stream) == Ids(w.stream) + Ids(w.relays[k].batch)
    ensures Ids(Run(w, events).stream) <= Ids(before.rows)
  {
    assert RelayOk(before, before.relays[k]);
    var batch := w.relays[k].batch;
    assert Ids(batch) <= Ids(before.rows);
    if w.relays[k].Publishing? {
      events := DrainEvents(k, |batch|);
      DrainCompletes(w, k);
      DeliverAllIds(w.stream, batch);
      DrainHasNoInserts(k, |batch|);
    } else {
      assert batch[0].id in Ids(w.stream);
      IdsOfConcat([batch[0]], batch[1..]);
      assert batch == [batch[0]] + batch[1..];
      if |batch| == 1 {
        events := [];
      } else {
        events := FinishRest(w, k);
      }
    }
  }

  lemma FinishRest(w: World, k: nat) returns (events: seq<Event>)
    requires k in w.relays && w.relays[k].Marking? && |w.relays[k].batch| > 1
    ensures NoInserts(events) && Run(w, events).rows == w.rows
    ensures Ids(Run(w, events).stream) == Ids(w.stream) + Ids(w.relays[k].batch[1..])
  {
    var batch := w.relays[k].batch;
    var w1 := Step(w, Mark(k));
    DrainCompletes(w1, k);
    DeliverAllIds(w1.stream, batch[1..]);
    DrainHasNoInserts(k, |batch| - 1);
    events := [Mark(k)] + DrainEvents(k, |batch| - 1);
    assert events[1..] == DrainEvents(k, |batch| - 1);
  }

  lemma {:induction false} DrainHasNoInserts(k: nat, n: nat)
    ensures NoInserts(DrainEvents(k, n))
  {
    if n != 0 {
      DrainHasNoInserts(k, n - 1);
    }
  }

  // Inserting in order is exactly what keeps the published prefix in every
  // continuation: a commit that overtakes an older created_at may break it.
  lemma InOrderIsExact(w: World, row: Row)
    requires Inv(w) && CanInsert(w, row)
    ensures InOrder(w, row) <==>
      forall events | NoInserts(events) :: IsPrefix(Run(Step(w, Insert(row)), events))
  {
    if InOrder(w, row) {
      forall events | NoInserts(events)
        ensures IsPrefix(Run(Step(w, Insert(row)), events))
      {
        InsertKeepsInvariant(w, row);
        NoInsertsIsOk(Step(w, Insert(row)), events);
        PublishedIsAPrefix(Step(w, Insert(row)), events);
      }
    } else {
      var events := LateInsertCanBreak(w, row);
      assert NoInserts(events);
    }
  }

  // It happens: a relay publishes a row whose transaction started later and
  // committed first; the earlier one then becomes visible behind it.
  lemma EarlierRowArrivesLate(late: Row, early: Row)
    requires early.at < late.at && early.id != late.id
    ensures var start := World([late], {}, [], map[]);
            var w := Run(start, [Fetch(0), Publish(0)]);
            && Inv(start) && Inv(w) && CanInsert(w, early) && !InOrder(w, early)
            && !IsPrefix(Run(w, [Insert(early)]))
  {
    var start := World([late], {}, [], map[]);
    var events := [Fetch(0), Publish(0)];
    InitIsOk([late]);
    OneRowPublished(late);
    NoInsertsIsOk(start, events);
    PublishedIsAPrefix(start, events);
    hide Inv;
    var w := Run(start, events);
    assert InsertSorted([late], early) == [early, late];
    assert [Insert(early)][1..] == [] && Run(w, [Insert(early)]) == Step(w, Insert(early));
    assert Run(w, [Insert(early)]).rows[0] == early && w.stream[0] == late;
  }

  lemma OneRowPublished(late: Row)
    ensures Run(World([late], {}, [], map[]), [Fetch(0), Publish(0)])
         == World([late], {}, [late], map[0 := Marking([late])])
  {
    var start := World([late], {}, [], map[]);
    assert Pending([late], {}) == [late] by { assert [late][1..] == []; }
    var w1 := Step(start, Fetch(0));
    assert w1 == start.(relays := map[0 := Publishing([late])]);
    var w := Step(w1, Publish(0));
    assert w == World([late], {}, [late], map[0 := Marking([late])]);
    assert [Fetch(0), Publish(0)][1..] == [Publish(0)] && [Publish(0)][1..] == [];
    assert Run(w1, [Publish(0)]) == w;
  }
}
