// The permission cache in front of the store: validations that look up, query and
// fill, role changes that commit and then drop the user's entries by SCAN and DEL,
// entries that expire, all interleaved.
module PermissionCache {
  import opened Sql
  import opened Rbac

  const MILLISECOND := 1
  const PERMS_TTL := 60_000 * MILLISECOND

  // Tenant and project are those of the token; a token may name neither.
  datatype Key = Key(tenant: Option<Uuid>, project: Option<Uuid>, user: Uuid)

  // readAt is history: when the value was read from the database.
  datatype Entry = Entry(value: set<string>, expiry: int, readAt: int)

  datatype Validation =
    | Missed(key: Key)
    | Queried(key: Key, value: set<string>, readAt: int)
    | Answered(key: Key, value: set<string>, readAt: int, at: int)

  datatype Change = Assign | Revoke

  datatype Request = Request(change: Change, user: Uuid, role: string, tenant: Uuid, project: Option<Uuid>)

  // owed are the keys that were there when the scan began and have been there
  // ever since without being returned.
  datatype Progress =
    | Requested
    | Committed
    | Scanning(owed: set<Key>)
    | Deleting(owed: set<Key>, batch: set<Key>, last: bool)
    | Ended

  datatype Writer = Writer(request: Request, progress: Progress)

  datatype Sys = Sys(
    now: int, db: Db, enabled: bool,
    cache: map<Key, Entry>,
    validations: map<nat, Validation>,
    writers: map<nat, Writer>)

  datatype Event =
    | Tick(d: nat)
    | LookUp(id: nat, key: Key)
    | Query(id: nat)
    | Fill(id: nat)
    | Ask(id: nat, request: Request)
    | Commit(id: nat)
    | Scan(id: nat, batch: set<Key>, last: bool)
    | Delete(id: nat)
    | Evict(keys: set<Key>)
    | Statement(after: Db)               // anything else written to the database

  // The query a miss falls back to: scoped when the token names a tenant.
  function Value(db: Db, key: Key): set<string> {
    if key.tenant.Some?
    then PermissionsScoped(db, Enforced(key.tenant), key.user, key.tenant.value, key.project)
    else PermissionsAnywhere(db, key.user)
  }

  function PermissionsAnywhere(db: Db, user: Uuid): set<string> {
    set a, p | a in db.assignments && a.user == user && p in db.permissions && (a.role, p) in db.rolePermissions
      :: db.permissions[p]
  }

  predicate Live(s: Sys, key: Key) {
    key in s.cache && s.now < s.cache[key].expiry
  }

  function Matching(s: Sys, user: Uuid): set<Key> {
    set k | k in s.cache && Live(s, k) && k.user == user
  }

  ghost function Outcome(db: Db, r: Request): Tx {
    if r.change.Assign? then AssignRole(db, Enforced(Some(r.tenant)), r.user, r.role, r.tenant, r.project)
    else RevokeRole(db, Enforced(Some(r.tenant)), r.user, r.role, r.tenant, r.project)
  }

  // A key that goes away, or is written anew, is no longer one the scan owes.
  function Forgive(writers: map<nat, Writer>, keys: set<Key>): map<nat, Writer> {
    map id | id in writers ::
      match writers[id].progress
      case Scanning(owed) => writers[id].(progress := Scanning(owed - keys))
      case Deleting(owed, batch, last) => writers[id].(progress := Deleting(owed - keys, batch, last))
      case _ => writers[id]
  }

  function Remove(s: Sys, keys: set<Key>): Sys {
    s.(cache := s.cache - keys, writers := Forgive(s.writers, keys))
  }

  function At(s: Sys, id: nat, progress: Progress): Sys
    requires id in s.writers
  {
    s.(writers := s.writers[id := s.writers[id].(progress := progress)])
  }

  // A full iteration returns every element that was there from start to end; it
  // may end only when nothing is owed any more.
  ghost predicate MayScan(s: Sys, owed: set<Key>, user: Uuid, batch: set<Key>, last: bool) {
    && (forall k | k in batch :: k.user == user)
    && (last ==> forall k | k in owed - batch :: !Live(s, k))
  }

  ghost function Step(s: Sys, e: Event): Sys {
    match e
    case Tick(d) => s.(now := s.now + d)
    case LookUp(id, key) =>
      if id in s.validations then s
      else s.(validations := s.validations[id :=
        if s.enabled && Live(s, key) then Answered(key, s.cache[key].value, s.cache[key].readAt, s.now) else Missed(key)])
    case Query(id) =>
      if id in s.validations && s.validations[id].Missed? then
        var key := s.validations[id].key;
        s.(validations := s.validations[id := Queried(key, Value(s.db, key), s.now)])
      else s
    case Fill(id) =>
      if id in s.validations && s.validations[id].Queried? then
        var v := s.validations[id];
        var answered := s.(validations := s.validations[id := Answered(v.key, v.value, v.readAt, s.now)]);
        if !s.enabled then answered
        else answered.(cache := s.cache[v.key := Entry(v.value, s.now + PERMS_TTL, v.readAt)],
                       writers := Forgive(s.writers, {v.key}))
      else s
    case Ask(id, request) =>
      if id in s.writers then s else s.(writers := s.writers[id := Writer(request, Requested)])
    case Commit(id) =>
      if id in s.writers && s.writers[id].progress.Requested? then
        var tx := Outcome(s.db, s.writers[id].request);
        At(s.(db := After(s.db, tx)), id, if tx.Commit? && s.enabled then Committed else Ended)
      else s
    case Scan(id, batch, last) =>
      if id in s.writers && (s.writers[id].progress.Committed? || s.writers[id].progress.Scanning?) then
        var user := s.writers[id].request.user;
        var owed := if s.writers[id].progress.Committed? then Matching(s, user) else s.writers[id].progress.owed;
        if MayScan(s, owed, user, batch, last) then At(s, id, Deleting(owed - batch, batch, last)) else s
      else s
    case Delete(id) =>
      if id in s.writers && s.writers[id].progress.Deleting? then
        var p := s.writers[id].progress;
        At(Remove(s, p.batch), id, if p.last then Ended else Scanning(p.owed - p.batch))
      else s
    case Evict(keys) => Remove(s, keys)
    case Statement(after) => s.(db := after)
  }

  // All the states of a run, the first one included.
  ghost function Trace(s: Sys, events: seq<Event>): (t: seq<Sys>)
    ensures |t| == |events| + 1
    decreases |events|
  {
    if events == [] then [s]
    else
      var n := |events| - 1;
      var before := Trace(s, events[..n]);
      before + [Step(before[n], events[n])]
  }

  // ── Bounded staleness ─────────────────────────────────────

  // The value is what the database held for this key at that time.
  ghost predicate Known(trace: seq<Sys>, key: Key, value: set<string>, at: int) {
    exists j :: 0 <= j < |trace| && trace[j].now == at && value == Value(trace[j].db, key)
  }

  // Fills take at most d from their query to their cache write.
  ghost predicate Prompt(s: Sys, e: Event, d: nat) {
    e.Fill? && e.id in s.validations && s.validations[e.id].Queried? ==> s.now - s.validations[e.id].readAt <= d
  }

  ghost predicate EntryExplained(trace: seq<Sys>, now: int, d: nat, key: Key, e: Entry) {
    Known(trace, key, e.value, e.readAt) && e.readAt <= now && e.expiry <= e.readAt + d + PERMS_TTL
  }

  ghost predicate ValidationExplained(trace: seq<Sys>, now: int, d: nat, v: Validation) {
    match v
    case Missed(_) => true
    case Queried(key, value, readAt) => Known(trace, key, value, readAt) && readAt <= now
    case Answered(key, value, readAt, at) =>
      Known(trace, key, value, readAt) && readAt <= at <= now && at - readAt < PERMS_TTL + d
  }

  ghost predicate Explained(trace: seq<Sys>, d: nat)
    requires |trace| > 0
  {
    var s := trace[|trace| - 1];
    && (forall k | k in s.cache :: EntryExplained(trace, s.now, d, k, s.cache[k]))
    && (forall id | id in s.validations :: ValidationExplained(trace, s.now, d, s.validations[id]))
  }

  lemma KnownLater(trace: seq<Sys>, s: Sys, key: Key, value: set<string>, at: int)
    requires Known(trace, key, value, at)
    ensures Known(trace + [s], key, value, at)
  {
    var j :| 0 <= j < |trace| && trace[j].now == at && value == Value(trace[j].db, key);
    assert (trace + [s])[j] == trace[j];
  }

  lemma KnownNow(trace: seq<Sys>, key: Key)
    requires |trace| > 0
    ensures var s := trace[|trace| - 1]; Known(trace, key, Value(s.db, key), s.now)
  {
  }

  lemma StepIsExplained(trace: seq<Sys>, e: Event, d: nat)
    requires |trace| > 0 && Explained(trace, d) && Prompt(trace[|trace| - 1], e, d)
    ensures Explained(trace + [Step(trace[|trace| - 1], e)], d)
  {
    hide Value, Known;
    var s := trace[|trace| - 1];
    var s' := Step(s, e);
    var trace' := trace + [s'];
    forall k | k in s'.cache
      ensures EntryExplained(trace', s'.now, d, k, s'.cache[k])
    {
      if k in s.cache && s'.cache[k] == s.cache[k] {
        KnownLater(trace, s', k, s.cache[k].value, s.cache[k].readAt);
      } else {
        var v := s.validations[e.id];
        assert ValidationExplained(trace, s.now, d, v);
        KnownLater(trace, s', v.key, v.value, v.readAt);
      }
    }
    forall id | id in s'.validations
      ensures ValidationExplained(trace', s'.now, d, s'.validations[id])
    {
      ValidationStaysExplained(trace, e, d, id);
    }
  }

  lemma ValidationStaysExplained(trace: seq<Sys>, e: Event, d: nat, id: nat)
    requires |trace| > 0 && Explained(trace, d) && Prompt(trace[|trace| - 1], e, d)
    requires id in Step(trace[|trace| - 1], e).validations
    ensures var s' := Step(trace[|trace| - 1], e);
            ValidationExplained(trace + [s'], s'.now, d, s'.validations[id])
  {
    hide Value, Known;
    var s := trace[|trace| - 1];
    var s' := Step(s, e);
    if id in s.validations {
      var v := s.validations[id];
      assert ValidationExplained(trace, s.now, d, v);
      if !v.Missed? {
        KnownLater(trace, s', v.key, v.value, v.readAt);
      } else if e.Query? && e.id == id {
        KnownNow(trace, v.key);
        KnownLater(trace, s', v.key, Value(s.db, v.key), s.now);
      }
    } else if Live(s, e.key) {
      var entry := s.cache[e.key];
      assert EntryExplained(trace, s.now, d, e.key, entry);
      KnownLater(trace, s', e.key, entry.value, entry.readAt);
    }
  }

  ghost predicate PromptRun(s: Sys, events: seq<Event>, d: nat) {
    forall i | 0 <= i < |events| :: Prompt(Trace(s, events)[i], events[i], d)
  }

  lemma TracePrefix(s: Sys, events: seq<Event>)
    requires events != []
    ensures var n := |events| - 1;
            Trace(s, events) == Trace(s, events[..n]) + [Step(Trace(s, events[..n])[n], events[n])]
  {
  }

  lemma {:induction false} RunIsExplained(s: Sys, events: seq<Event>, d: nat)
    requires s.cache == map[] && s.validations == map[] && PromptRun(s, events, d)
    ensures Explained(Trace(s, events), d)
    decreases |events|
  {
    hide Step, Prompt;
    if events != [] {
      var n := |events| - 1;
      TracePrefix(s, events);
      forall i | 0 <= i < n
        ensures Prompt(Trace(s, events[..n])[i], events[..n][i], d)
      {
        assert Prompt(Trace(s, events)[i], events[i], d);
      }
      RunIsExplained(s, events[..n], d);
      assert Prompt(Trace(s, events)[n], events[n], d);
      StepIsExplained(Trace(s, events[..n]), events[n], d);
    }
  }

  // Permissions answered at a time are what the database held for that token at
  // some earlier moment of the run, less than 60 s and one fill before.
  lemma BoundedStaleness(s: Sys, events: seq<Event>, d: nat, id: nat) returns (j: nat)
    requires s.cache == map[] && s.validations == map[] && PromptRun(s, events, d)
    requires var end := Trace(s, events)[|events|]; id in end.validations && end.validations[id].Answered?
    ensures var trace := Trace(s, events);
            var v := trace[|events|].validations[id];
            && j <= |events| && v.value == Value(trace[j].db, v.key)
            && trace[j].now <= v.at && v.at - trace[j].now < 60_000 + d
  {
    hide Step, Value;
    RunIsExplained(s, events, d);
    var trace := Trace(s, events);
    var v := trace[|events|].validations[id];
    assert ValidationExplained(trace, trace[|events|].now, d, v);
    j :| 0 <= j < |trace| && trace[j].now == v.readAt && v.value == Value(trace[j].db, v.key);
  }

  // ── What an entry answers ─────────────────────────────────

  // Once filled, an entry answers for a minute and not a millisecond longer; with
  // the cache off nothing is ever filled or answered from it.
  lemma EntryLastsAMinute(s: Sys, filler: nat, asker: nat, d: nat)
    requires filler in s.validations && s.validations[filler].Queried? && asker !in s.validations
    ensures var v := s.validations[filler];
            var filled := Step(s, Fill(filler));
            var later := Step(filled, Tick(d));
            var answer := Step(later, LookUp(asker, v.key)).validations[asker];
            && filled.validations[filler] == Answered(v.key, v.value, v.readAt, s.now)
            && later.now == s.now + d && later.cache == filled.cache
            && (answer == Answered(v.key, v.value, v.readAt, s.now + d) <==> s.enabled && d < 60_000)
            && (answer == Missed(v.key) <==> !s.enabled || d >= 60_000)
            && (forall k | k != v.key :: k in filled.cache <==> k in s.cache)
            && (forall k | k != v.key && k in s.cache :: filled.cache[k] == s.cache[k])
            && (!s.enabled ==> filled.cache == s.cache)
  {
  }

  lemma DisabledAlwaysMisses(s: Sys, id: nat, key: Key)
    requires !s.enabled && id !in s.validations
    ensures Step(s, LookUp(id, key)) == s.(validations := s.validations[id := Missed(key)])
  {
  }

  // A scan that returns everything at once, and its deletion, take away the live
  // entries of the writer's user and leave everybody else's.
  lemma OneScanDropsTheUser(s: Sys, id: nat, batch: set<Key>, k: Key)
    requires id in s.writers && s.writers[id].progress.Committed?
    requires MayScan(s, Matching(s, s.writers[id].request.user), s.writers[id].request.user, batch, true)
    ensures var end := Step(Step(s, Scan(id, batch, true)), Delete(id));
            && end.writers[id].progress.Ended? && end.now == s.now && end.db == s.db
            && (k.user == s.writers[id].request.user ==> !Live(end, k))
            && (k.user != s.writers[id].request.user ==>
                  (k in end.cache <==> k in s.cache) && (k in s.cache ==> end.cache[k] == s.cache[k]))
  {
    var user := s.writers[id].request.user;
    if Live(s, k) && k.user == user {
      assert k in Matching(s, user);
    }
  }

  // The same in two replies: the second must return what the first still owed.
  lemma TwoScansDropTheUser(s: Sys, id: nat, first: set<Key>, second: set<Key>, k: Key)
    requires id in s.writers && s.writers[id].progress.Committed?
    requires var user := s.writers[id].request.user;
             var once := Step(Step(s, Scan(id, first, false)), Delete(id));
             MayScan(s, Matching(s, user), user, first, false) && MayScan(once, Matching(s, user) - first, user, second, true)
    ensures var end := Step(Step(Step(Step(s, Scan(id, first, false)), Delete(id)), Scan(id, second, true)), Delete(id));
            && end.writers[id].progress.Ended? && end.now == s.now && end.db == s.db
            && (k.user == s.writers[id].request.user ==> !Live(end, k))
            && (k.user != s.writers[id].request.user ==>
                  (k in end.cache <==> k in s.cache) && (k in s.cache ==> end.cache[k] == s.cache[k]))
  {
    var user := s.writers[id].request.user;
    var once := Step(Step(s, Scan(id, first, false)), Delete(id));
    assert once.writers[id].progress.Scanning? && once.writers[id].progress.owed == Matching(s, user) - first;
    assert once.cache == s.cache - first;
    var end := Step(Step(once, Scan(id, second, true)), Delete(id));
    assert end.cache == once.cache - second;
    if Live(s, k) && k.user == user {
      assert k in Matching(s, user) && (k !in first ==> Live(once, k));
      assert k !in first && k !in second ==> k in (Matching(s, user) - first) - second;
    }
  }

  // Only a change that committed goes on to invalidate, and without a cache none does.
  lemma CommitThenInvalidates(s: Sys, id: nat)
    requires id in s.writers && s.writers[id].progress.Requested?
    ensures var tx := Outcome(s.db, s.writers[id].request);
            Step(s, Event.Commit(id)) ==
              if tx.Rollback? then At(s, id, Ended)
              else At(s.(db := tx.db), id, if s.enabled then Committed else Ended)
  {
    hide Outcome;
  }
}
