// Role changes and the cache: once a change has finished dropping the user's
// entries, what is cached for that user is what the database says.
module PermissionCoherence {
  import opened Sql
  import opened Rbac
  import opened PermissionCache

  // No other statement changes what a live entry or a pending fill of the user
  // says, and no role change overtakes a fill: what a validation has read but not
  // yet cached is still right after the change commits.
  ghost predicate Orderly(s: Sys, e: Event, user: Uuid) {
    && (e.Statement? ==>
      forall k: Key | k.user == user && (Live(s, k) || Pending(s, k)) :: Value(e.after, k) == Value(s.db, k))
    && (e.Commit? && e.id in s.writers && s.writers[e.id].progress.Requested? && s.writers[e.id].request.user == user ==>
      FillsStayRight(s, After(s.db, Outcome(s.db, s.writers[e.id].request)), user))
  }

  // A fill for this key has read its value.
  predicate Pending(s: Sys, k: Key) {
    exists id | id in s.validations && s.validations[id].Queried? :: s.validations[id].key == k
  }

  ghost predicate FillsStayRight(s: Sys, after: Db, user: Uuid) {
    forall id | id in s.validations && s.validations[id].Queried? && s.validations[id].key.user == user ::
      s.validations[id].value == Value(after, s.validations[id].key)
  }

  predicate Busy(w: Writer) {
    w.progress.Committed? || w.progress.Scanning? || w.progress.Deleting?
  }

  // A change that is still going to drop this key.
  predicate WillDrop(w: Writer, k: Key) {
    && w.request.user == k.user
    && match w.progress
       case Committed => true
       case Scanning(owed) => k in owed
       case Deleting(owed, batch, _) => k in owed || k in batch
       case _ => false
  }

  ghost predicate EntryOk(s: Sys, k: Key)
    requires k in s.cache
  {
    Live(s, k) ==>
      s.cache[k].value == Value(s.db, k) || exists id | id in s.writers :: WillDrop(s.writers[id], k)
  }

  ghost predicate ValidationOk(s: Sys, v: Validation) {
    v.Queried? ==> v.value == Value(s.db, v.key)
  }

  // The last deletion owes nothing that could still answer.
  predicate WriterOk(s: Sys, w: Writer) {
    w.progress.Deleting? && w.progress.last ==> forall k | k in w.progress.owed :: !Live(s, k)
  }

  ghost predicate Coherent(s: Sys, user: Uuid) {
    && s.enabled
    && (forall k | k in s.cache && k.user == user :: EntryOk(s, k))
    && (forall id | id in s.validations && s.validations[id].key.user == user :: ValidationOk(s, s.validations[id]))
    && (forall id | id in s.writers :: WriterOk(s, s.writers[id]))
  }

  // ── What a role change can affect ─────────────────────────

  lemma OtherUsersKeepTheirRows(db: Db, r: Request)
    ensures var after := After(db, Outcome(db, r));
            && after == db.(assignments := after.assignments)
            && forall a: Assignment | a.user != r.user :: a in after.assignments <==> a in db.assignments
  {
    hide ResolveRole, VisibleRoles;
  }

  lemma OtherUsersKeepTheirValue(db: Db, r: Request, k: Key)
    requires k.user != r.user
    ensures Value(After(db, Outcome(db, r)), k) == Value(db, k)
  {
    hide Outcome, Value;
    OtherUsersKeepTheirRows(db, r);
    SameRowsSameValue(db, After(db, Outcome(db, r)), k);
  }

  lemma SameRowsSameValue(db: Db, after: Db, k: Key)
    requires after == db.(assignments := after.assignments)
    requires forall a: Assignment | a.user == k.user :: a in after.assignments <==> a in db.assignments
    ensures Value(after, k) == Value(db, k)
  {
  }

  // ── Preservation ──────────────────────────────────────────

  // Committing a role change keeps coherence exactly when no fill for the user is
  // overtaken by it.
  lemma CommitKeepsCoherenceExactly(s: Sys, id: nat, user: Uuid)
    requires Coherent(s, user)
    ensures Coherent(Step(s, Event.Commit(id)), user) <==> Orderly(s, Event.Commit(id), user)
  {
    hide Value, Outcome;
    var s' := Step(s, Event.Commit(id));
    if id in s.writers && s.writers[id].progress.Requested? {
      forall v | v in s.validations && s.validations[v].Queried? && s.validations[v].key.user == user
        ensures Coherent(s', user) ==> s.validations[v].value == Value(s'.db, s.validations[v].key)
      {
        assert Coherent(s', user) ==> ValidationOk(s', s'.validations[v]);
      }
      if Orderly(s, Event.Commit(id), user) {
        CommitKeepsCoherence(s, id, user);
      }
    }
  }

  lemma CommitKeepsCoherence(s: Sys, id: nat, user: Uuid)
    requires Coherent(s, user) && Orderly(s, Event.Commit(id), user)
    ensures Coherent(Step(s, Event.Commit(id)), user)
  {
    hide Value, Outcome;
    var s' := Step(s, Event.Commit(id));
    if id in s.writers && s.writers[id].progress.Requested? {
      var r := s.writers[id].request;
      var tx := Outcome(s.db, r);
      forall k | k in s'.cache && k.user == user
        ensures EntryOk(s', k)
      {
        assert EntryOk(s, k);
        assert forall q | q in s.writers && WillDrop(s.writers[q], k) :: q in s'.writers && WillDrop(s'.writers[q], k);
        if r.user == user && tx.Commit? {
          assert WillDrop(s'.writers[id], k);
        } else if r.user != user {
          OtherUsersKeepTheirValue(s.db, r, k);
        }
      }
      forall v | v in s'.validations && s'.validations[v].key.user == user
        ensures ValidationOk(s', s'.validations[v])
      {
        assert ValidationOk(s, s.validations[v]);
        if r.user != user {
          OtherUsersKeepTheirValue(s.db, r, s.validations[v].key);
        }
      }
      assert forall q | q in s.writers :: WriterOk(s, s.writers[q]);
    }
  }

  lemma ValidationStepKeepsCoherence(s: Sys, e: Event, user: Uuid)
    requires Coherent(s, user) && (e.LookUp? || e.Query? || e.Ask?)
    ensures Coherent(Step(s, e), user)
  {
    hide Value;
    var s' := Step(s, e);
    forall k | k in s'.cache && k.user == user
      ensures EntryOk(s', k)
    {
      assert EntryOk(s, k);
      assert forall q | q in s.writers && WillDrop(s.writers[q], k) :: q in s'.writers && WillDrop(s'.writers[q], k);
    }
    assert forall q | q in s.writers :: WriterOk(s, s.writers[q]);
    assert forall q | q in s'.writers :: WriterOk(s', s'.writers[q]);
  }

  lemma TimeAndStatementsKeepCoherence(s: Sys, e: Event, user: Uuid)
    requires Coherent(s, user) && Orderly(s, e, user) && (e.Tick? || e.Statement?)
    ensures Coherent(Step(s, e), user)
  {
  }

  // Forgiving keys leaves every other key's prospective deletion in place.
  lemma ForgivenElsewhere(writers: map<nat, Writer>, keys: set<Key>, k: Key)
    requires k !in keys
    ensures forall id | id in writers ::
              WillDrop(writers[id], k) ==> WillDrop(Forgive(writers, keys)[id], k)
  {
  }

  lemma FillKeepsCoherence(s: Sys, id: nat, user: Uuid)
    requires Coherent(s, user)
    ensures Coherent(Step(s, Fill(id)), user)
  {
    hide Value;
    var s' := Step(s, Fill(id));
    if id in s.validations && s.validations[id].Queried? {
      var v := s.validations[id];
      forall k | k in s'.cache && k.user == user
        ensures EntryOk(s', k)
      {
        if k == v.key {
          assert ValidationOk(s, v);
        } else {
          assert EntryOk(s, k);
          ForgivenElsewhere(s.writers, {v.key}, k);
        }
      }
      forall q | q in s'.writers
        ensures WriterOk(s', s'.writers[q])
      {
        assert WriterOk(s, s.writers[q]);
      }
    }
  }

  lemma RemoveKeepsCoherence(s: Sys, keys: set<Key>, user: Uuid)
    requires Coherent(s, user)
    ensures Coherent(Remove(s, keys), user)
  {
    hide Value;
    var s' := Remove(s, keys);
    forall k | k in s'.cache && k.user == user
      ensures EntryOk(s', k)
    {
      assert EntryOk(s, k);
      ForgivenElsewhere(s.writers, keys, k);
    }
    forall q | q in s'.writers
      ensures WriterOk(s', s'.writers[q])
    {
      assert WriterOk(s, s.writers[q]);
    }
  }

  lemma ScanKeepsCoherence(s: Sys, id: nat, batch: set<Key>, last: bool, user: Uuid)
    requires Coherent(s, user)
    ensures Coherent(Step(s, Scan(id, batch, last)), user)
  {
    hide Value;
    var s' := Step(s, Scan(id, batch, last));
    forall k | k in s'.cache && k.user == user
      ensures EntryOk(s', k)
    {
      assert EntryOk(s, k);
      if Live(s, k) {
        assert forall q | q in s.writers && WillDrop(s.writers[q], k) :: q in s'.writers && WillDrop(s'.writers[q], k);
      }
    }
    forall q | q in s'.writers
      ensures WriterOk(s', s'.writers[q])
    {
      assert WriterOk(s, s.writers[q]);
    }
  }

  lemma DeleteKeepsCoherence(s: Sys, id: nat, user: Uuid)
    requires Coherent(s, user)
    ensures Coherent(Step(s, Delete(id)), user)
  {
    hide Value;
    if id in s.writers && s.writers[id].progress.Deleting? {
      var p := s.writers[id].progress;
      assert WriterOk(s, s.writers[id]);
      var s1 := Remove(s, p.batch);
      RemoveKeepsCoherence(s, p.batch, user);
      var s' := Step(s, Delete(id));
      forall k | k in s'.cache && k.user == user
        ensures EntryOk(s', k)
      {
        assert EntryOk(s1, k);
        assert k !in p.batch;
        if Live(s1, k) {
          assert forall q | q in s1.writers && q != id && WillDrop(s1.writers[q], k) ::
              q in s'.writers && WillDrop(s'.writers[q], k);
          assert !p.last && WillDrop(s1.writers[id], k) ==> WillDrop(s'.writers[id], k);
        }
      }
      forall q | q in s'.writers
        ensures WriterOk(s', s'.writers[q])
      {
        assert WriterOk(s1, s1.writers[q]);
      }
    }
  }

  lemma StepKeepsCoherence(s: Sys, e: Event, user: Uuid)
    requires Coherent(s, user) && Orderly(s, e, user)
    ensures Coherent(Step(s, e), user)
  {
    hide Coherent;
    match e
    case Tick(_) => TimeAndStatementsKeepCoherence(s, e, user);
    case Statement(_) => TimeAndStatementsKeepCoherence(s, e, user);
    case LookUp(_, _) => ValidationStepKeepsCoherence(s, e, user);
    case Query(_) => ValidationStepKeepsCoherence(s, e, user);
    case Ask(_, _) => ValidationStepKeepsCoherence(s, e, user);
    case Fill(id) => FillKeepsCoherence(s, id, user);
    case Commit(id) => CommitKeepsCoherence(s, id, user);
    case Scan(id, batch, last) => ScanKeepsCoherence(s, id, batch, last, user);
    case Delete(id) => DeleteKeepsCoherence(s, id, user);
    case Evict(keys) => RemoveKeepsCoherence(s, keys, user);
  }

  ghost function Run(s: Sys, events: seq<Event>): Sys
    decreases |events|
  {
    if events == [] then s else Run(Step(s, events[0]), events[1..])
  }

  ghost predicate OrderlyRun(s: Sys, events: seq<Event>, user: Uuid)
    decreases |events|
  {
    events == [] || (Orderly(s, events[0], user) && OrderlyRun(Step(s, events[0]), events[1..], user))
  }

  // In a run in which no commit overtakes a fill of the user and no other statement
  // changes what is cached or being filled: whenever no change of this user's roles
  // is between its commit and the end of its invalidation, every answer from the
  // cache is the database's.
  lemma {:induction false} CacheAgreesBetweenChanges(s: Sys, events: seq<Event>, user: Uuid)
    requires Coherent(s, user) && OrderlyRun(s, events, user)
    ensures Coherent(Run(s, events), user)
    ensures var end := Run(s, events);
            (forall id | id in end.writers && end.writers[id].request.user == user :: !Busy(end.writers[id])) ==>
              forall k | Live(end, k) && k.user == user :: end.cache[k].value == Value(end.db, k)
    decreases |events|
  {
    hide Step, Value, Orderly;
    if events != [] {
      StepKeepsCoherence(s, events[0], user);
      CacheAgreesBetweenChanges(Step(s, events[0]), events[1..], user);
    } else if forall id | id in s.writers && s.writers[id].request.user == user :: !Busy(s.writers[id]) {
      forall k | Live(s, k) && k.user == user
        ensures s.cache[k].value == Value(s.db, k)
      {
        assert EntryOk(s, k);
      }
    }
  }

  lemma EmptyCacheIsCoherent(s: Sys, user: Uuid)
    requires s.enabled && s.cache == map[] && s.validations == map[] && s.writers == map[]
    ensures Coherent(s, user)
  {
  }

  // Without that: a fill that has read its value waits while a role change of the
  // user commits and drops every entry, and then stores what it read. The change
  // has ended, the entry is live, and it is right exactly when the change did not
  // touch the value.
  lemma OvertakenFill(s: Sys, v: nat, w: nat)
    requires s.enabled && v in s.validations && s.validations[v].Queried?
    requires w in s.writers && s.writers[w].progress.Requested? && s.writers[w].request.user == s.validations[v].key.user
    requires Outcome(s.db, s.writers[w].request).Commit?
    ensures var k := s.validations[v].key;
            var events := [Event.Commit(w), Scan(w, Matching(s, k.user), true), Delete(w), Fill(v)];
            var end := Run(s, events);
            && w in end.writers && end.writers[w].progress.Ended?
            && end.db == After(s.db, Outcome(s.db, s.writers[w].request))
            && Live(end, k) && end.cache[k].value == s.validations[v].value
            && (end.cache[k].value == Value(end.db, k) <==> s.validations[v].value == Value(end.db, k))
  {
    hide Value, Outcome, Step;
    var k := s.validations[v].key;
    var batch := Matching(s, k.user);
    var events := [Event.Commit(w), Scan(w, batch, true), Delete(w), Fill(v)];
    var s1 := Step(s, events[0]);
    var s3 := Step(Step(s1, events[1]), events[2]);
    ChangeRunsThrough(s, w);
    FillStores(s3, v);
    assert events[1..][1..] == events[2..] && events[2..][1..] == events[3..] && events[3..][1..] == [];
    assert Run(s, events) == Run(s1, events[1..]) == Run(Step(s1, events[1]), events[2..]) == Run(s3, events[3..]);
    assert Run(s3, events[3..]) == Step(s3, Fill(v));
  }

  // A role change alone: it commits, finds every entry in one scan and drops them.
  lemma ChangeRunsThrough(s: Sys, w: nat)
    requires s.enabled && w in s.writers && s.writers[w].progress.Requested? && Outcome(s.db, s.writers[w].request).Commit?
    ensures var user := s.writers[w].request.user;
            var committed := Step(s, Event.Commit(w));
            var end := Step(Step(committed, Scan(w, Matching(s, user), true)), Delete(w));
            && w in end.writers && end.writers[w].progress.Ended? && end.enabled && end.now == s.now
            && end.db == After(s.db, Outcome(s.db, s.writers[w].request)) && end.validations == s.validations
            && end.cache == s.cache - Matching(s, user)
  {
    hide Value, Outcome;
    var user := s.writers[w].request.user;
    var s1 := Step(s, Event.Commit(w));
    assert s1.writers[w].progress == Committed;
    var batch := Matching(s, user);
    assert Matching(s1, user) == batch && batch - batch == {};
    var s2 := Step(s1, Scan(w, batch, true));
    assert s2.writers[w].progress == Deleting({}, batch, true);
  }

  lemma FillStores(s: Sys, v: nat)
    requires s.enabled && v in s.validations && s.validations[v].Queried?
    ensures var k, end := s.validations[v].key, Step(s, Fill(v));
            && Live(end, k) && end.cache[k].value == s.validations[v].value && end.db == s.db && end.enabled
            && end.writers.Keys == s.writers.Keys
            && forall w | w in s.writers && s.writers[w].progress.Ended? :: end.writers[w].progress.Ended?
  {
    hide Value;
  }
}
