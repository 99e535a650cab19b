// The two denylists of revoked access tokens: a durable table written first and
// a cache of the same facts whose entries expire by themselves.
module Denylist {
  import opened Sql

  type Jti = string

  // Times are milliseconds; a token's exp is whole seconds.
  const SECOND := 1000

  // The range of instants the durable table's timestamps are built from.
  const MIN_TIMESTAMP := -8_334_601_228_800
  const MAX_TIMESTAMP := 8_210_266_876_799

  predicate Representable(exp: int) {
    MIN_TIMESTAMP <= exp <= MAX_TIMESTAMP
  }

  // A logout with its access token parsed: insert, read the clock, set the entry.
  datatype Progress = Parsed | Inserted | Timed(ttl: int) | Ended

  datatype Logout = Logout(jti: Jti, progress: Progress)

  // exps holds the signed expiry of every token; an entry of redis is the time
  // it goes away.
  datatype Sys = Sys(
    now: int, enabled: bool, exps: map<Jti, int>,
    redis: map<Jti, int>, revoked: set<Jti>, logouts: map<nat, Logout>)

  datatype Event =
    | Tick(d: nat)
    | Begin(id: nat, jti: Jti)
    | Insert(id: nat)
    | ReadClock(id: nat)
    | Deny(id: nat)

  function FloorSeconds(ms: int): int {
    ms / SECOND
  }

  function At(s: Sys, id: nat, progress: Progress): Sys
    requires id in s.logouts
  {
    s.(logouts := s.logouts[id := s.logouts[id].(progress := progress)])
  }

  function SetEntry(redis: map<Jti, int>, enabled: bool, jti: Jti, ttl: int, now: int): map<Jti, int> {
    if jti == "" || ttl <= 0 || !enabled then redis else redis[jti := now + ttl * SECOND]
  }

  function Step(s: Sys, e: Event): Sys {
    match e
    case Tick(d) => s.(now := s.now + d)
    case Begin(id, jti) =>
      if id in s.logouts || jti !in s.exps then s else s.(logouts := s.logouts[id := Logout(jti, Parsed)])
    case Insert(id) =>
      if id in s.logouts && s.logouts[id].progress.Parsed? then
        var jti := s.logouts[id].jti;
        var revoked := if jti in s.exps && Representable(s.exps[jti]) then s.revoked + {jti} else s.revoked;
        At(s.(revoked := revoked), id, Inserted)
      else s
    case ReadClock(id) =>
      if id in s.logouts && s.logouts[id].progress.Inserted? && s.logouts[id].jti in s.exps then
        At(s, id, Timed(s.exps[s.logouts[id].jti] - FloorSeconds(s.now)))
      else s
    case Deny(id) =>
      if id in s.logouts && s.logouts[id].progress.Timed? then
        var l := s.logouts[id];
        At(s.(redis := SetEntry(s.redis, s.enabled, l.jti, l.progress.ttl, s.now)), id, Ended)
      else s
  }

  function Run(s: Sys, events: seq<Event>): Sys
    decreases |events|
  {
    if events == [] then s else Run(Step(s, events[0]), events[1..])
  }

  // ── The two answers ───────────────────────────────────────

  // None means "ask the durable table".
  function RedisAnswer(s: Sys, jti: Jti): Option<bool> {
    if jti == "" || !s.enabled then None else Some(jti in s.redis && s.now < s.redis[jti])
  }

  predicate PostgresAnswer(s: Sys, jti: Jti) {
    jti in s.revoked
  }

  predicate Denied(s: Sys, jti: Jti) {
    match RedisAnswer(s, jti)
    case Some(denied) => denied
    case None => PostgresAnswer(s, jti)
  }

  predicate Between(l: Logout) {
    l.progress.Inserted? || l.progress.Timed?
  }

  predicate Expired(s: Sys, jti: Jti)
    requires jti in s.exps
  {
    s.exps[jti] * SECOND <= s.now
  }

  // What a denial means to whoever asks d later: the id is denied for the time given
  // and no other answer changes.
  lemma AnswerAfterDenial(s: Sys, jti: Jti, ttl: int, d: nat, asked: Jti)
    ensures var plain := s.(now := s.now + d);
            var after := plain.(redis := SetEntry(s.redis, s.enabled, jti, ttl, s.now));
            RedisAnswer(after, asked) ==
              if asked == "" || !s.enabled then None
              else if asked == jti && ttl > 0 then Some(d < ttl * SECOND)
              else RedisAnswer(plain, asked)
    ensures !s.enabled ==> SetEntry(s.redis, s.enabled, jti, ttl, s.now) == s.redis
  {
  }

  // ── Invariant ─────────────────────────────────────────────

  predicate Mirrored(s: Sys, jti: Jti)
    requires jti in s.exps
  {
    Expired(s, jti) || (jti in s.redis && s.exps[jti] * SECOND <= s.redis[jti])
  }

  predicate LogoutOk(s: Sys, l: Logout) {
    && l.jti in s.exps
    && (l.progress.Ended? ==> l.jti == "" || !s.enabled || Mirrored(s, l.jti))
    && (Between(l) || l.progress.Ended? ==> l.jti in s.revoked)
    && (l.progress.Timed? ==> s.exps[l.jti] * SECOND <= s.now + l.progress.ttl * SECOND)
  }

  ghost predicate RevokedOk(s: Sys, jti: Jti) {
    && jti in s.exps
    && (jti == "" || !s.enabled || Mirrored(s, jti) || exists id | id in s.logouts :: s.logouts[id].jti == jti && Between(s.logouts[id]))
  }

  ghost predicate Inv(s: Sys) {
    && (forall jti | jti in s.exps :: Representable(s.exps[jti]))
    && (forall jti | jti in s.redis :: jti in s.revoked)
    && (forall id | id in s.logouts :: LogoutOk(s, s.logouts[id]))
    && (forall jti | jti in s.revoked :: RevokedOk(s, jti))
  }

  lemma FreshServerIsConsistent(now: int, enabled: bool, exps: map<Jti, int>)
    requires forall jti | jti in exps :: Representable(exps[jti])
    ensures Inv(Sys(now, enabled, exps, map[], {}, map[]))
  {
  }

  // The remaining seconds are rounded up, so an entry outlives its token.
  lemma EntriesOutliveTokens(exp: int, readAt: int, now: int)
    requires readAt <= now
    ensures exp * SECOND <= now + (exp - FloorSeconds(readAt)) * SECOND
    ensures exp - FloorSeconds(readAt) <= 0 ==> exp * SECOND <= now
  {
  }

  lemma StepKeepsInvariant(s: Sys, e: Event)
    requires Inv(s)
    ensures Inv(Step(s, e))
  {
    var s' := Step(s, e);
    forall id | id in s'.logouts
      ensures LogoutOk(s', s'.logouts[id])
    {
      if id in s.logouts {
        assert LogoutOk(s, s.logouts[id]);
      }
    }
    forall jti | jti in s'.revoked
      ensures RevokedOk(s', jti)
    {
      RevokedStaysMirrored(s, e, jti);
    }
  }

  lemma RevokedStaysMirrored(s: Sys, e: Event, jti: Jti)
    requires Inv(s) && jti in Step(s, e).revoked
    ensures RevokedOk(Step(s, e), jti)
  {
    var s' := Step(s, e);
    if jti in s.revoked {
      assert RevokedOk(s, jti);
      if e.Deny? && e.id in s.logouts && s.logouts[e.id].jti == jti && s.logouts[e.id].progress.Timed? {
        assert LogoutOk(s, s.logouts[e.id]);
        assert jti == "" || !s.enabled || Mirrored(s', jti);
      } else if id :| id in s.logouts && s.logouts[id].jti == jti && Between(s.logouts[id]) {
        assert s'.logouts[id].jti == jti && Between(s'.logouts[id]);
      }
    } else {
      assert LogoutOk(s, s.logouts[e.id]);
      assert s'.logouts[e.id].jti == jti && Between(s'.logouts[e.id]);
    }
  }

  lemma {:induction false} EveryRunIsConsistent(s: Sys, events: seq<Event>)
    requires Inv(s)
    ensures Inv(Run(s, events))
    decreases |events|
  {
    if events != [] {
      StepKeepsInvariant(s, events[0]);
      EveryRunIsConsistent(Step(s, events[0]), events[1..]);
    }
  }

  // For a token that has not expired the two lists differ only between the two
  // writes of its logout, and then only in that the cache does not know yet.
  lemma DenylistsAgree(s: Sys, events: seq<Event>, jti: Jti)
    requires Inv(s)
    ensures var end := Run(s, events);
            && Inv(end)
            && (Denied(end, jti) ==> PostgresAnswer(end, jti))
            && (jti in end.exps && !Expired(end, jti)
                && (forall id | id in end.logouts && end.logouts[id].jti == jti :: !Between(end.logouts[id])) ==>
                  (Denied(end, jti) <==> PostgresAnswer(end, jti)))
  {
    EveryRunIsConsistent(s, events);
    var end := Run(s, events);
    assert jti in end.revoked ==> RevokedOk(end, jti);
  }

  lemma EndedStays(s: Sys, e: Event, id: nat)
    requires id in s.logouts && s.logouts[id].progress.Ended?
    ensures id in Step(s, e).logouts && Step(s, e).logouts[id] == s.logouts[id]
  {
  }

  lemma EndedIsDenied(s: Sys, id: nat)
    requires Inv(s) && id in s.logouts && s.logouts[id].progress.Ended?
    ensures var jti := s.logouts[id].jti; jti in s.exps && (!Expired(s, jti) ==> Denied(s, jti))
  {
  }

  // Once a logout has finished its token is denied, with the cache or without
  // it, until the token expires: whatever happens after.
  lemma {:induction false} LoggedOutStaysOut(s: Sys, events: seq<Event>, id: nat)
    requires Inv(s) && id in s.logouts && s.logouts[id].progress.Ended?
    ensures var end := Run(s, events);
            var jti := s.logouts[id].jti;
            jti in end.exps && (!Expired(end, jti) ==> Denied(end, jti))
    decreases |events|
  {
    hide Step, Inv;
    if events == [] {
      EndedIsDenied(s, id);
    } else {
      StepKeepsInvariant(s, events[0]);
      EndedStays(s, events[0], id);
      LoggedOutStaysOut(Step(s, events[0]), events[1..], id);
    }
  }

  // ── Who is denied ─────────────────────────────────────────

  predicate BeingLoggedOut(s: Sys, jti: Jti) {
    exists id | id in s.logouts :: s.logouts[id].jti == jti
  }

  predicate LogoutRecorded(s: Sys, jti: Jti) {
    exists id | id in s.logouts :: s.logouts[id].jti == jti && !s.logouts[id].progress.Parsed?
  }

  lemma StepRevokes(s: Sys, e: Event, jti: Jti)
    requires Inv(s) && (jti in s.revoked <==> LogoutRecorded(s, jti))
    ensures var s' := Step(s, e); jti in s'.revoked <==> LogoutRecorded(s', jti)
  {
    var s' := Step(s, e);
    if jti in s.revoked {
      RecordedStays(s, e, jti);
    } else if e.Insert? && e.id in s.logouts && s.logouts[e.id].jti == jti {
      assert LogoutOk(s, s.logouts[e.id]) && s'.logouts[e.id].jti == jti;
    } else {
      NotRecordedStays(s, e, jti);
    }
  }

  lemma RecordedStays(s: Sys, e: Event, jti: Jti)
    requires LogoutRecorded(s, jti)
    ensures LogoutRecorded(Step(s, e), jti)
  {
    var id :| id in s.logouts && s.logouts[id].jti == jti && !s.logouts[id].progress.Parsed?;
    var s' := Step(s, e);
    assert id in s'.logouts && s'.logouts[id].jti == jti && !s'.logouts[id].progress.Parsed?;
  }

  lemma NotRecordedStays(s: Sys, e: Event, jti: Jti)
    requires !LogoutRecorded(s, jti)
    requires e.Insert? && e.id in s.logouts ==> s.logouts[e.id].jti != jti
    ensures !LogoutRecorded(Step(s, e), jti)
  {
    forall id | id in Step(s, e).logouts
      ensures !(Step(s, e).logouts[id].jti == jti && !Step(s, e).logouts[id].progress.Parsed?)
    {
      assert id in s.logouts ==> !(s.logouts[id].jti == jti && !s.logouts[id].progress.Parsed?);
    }
  }

  // From a fresh server: the durable table holds exactly the ids whose own logout
  // got as far as its first write.
  lemma {:induction false} RevokedExactly(s: Sys, events: seq<Event>, jti: Jti)
    requires Inv(s) && (jti in s.revoked <==> LogoutRecorded(s, jti))
    ensures var end := Run(s, events); PostgresAnswer(end, jti) <==> LogoutRecorded(end, jti)
    decreases |events|
  {
    hide Step, Inv, LogoutRecorded;
    if events != [] {
      StepKeepsInvariant(s, events[0]);
      StepRevokes(s, events[0], jti);
      RevokedExactly(Step(s, events[0]), events[1..], jti);
    }
  }

  // A token nobody logs out stays accepted, with the cache or without it.
  lemma {:induction false} OthersStayAccepted(s: Sys, events: seq<Event>, jti: Jti)
    requires Inv(s) && jti !in s.revoked && !BeingLoggedOut(s, jti)
    requires forall e | e in events && e.Begin? :: e.jti != jti
    ensures var end := Run(s, events); !PostgresAnswer(end, jti) && !Denied(end, jti)
    decreases |events|
  {
    if events == [] {
      assert jti !in s.redis;
    } else {
      StepSparesOthers(s, events[0], jti);
      StepKeepsInvariant(s, events[0]);
      assert events[0] in events && forall e | e in events[1..] :: e in events;
      OthersStayAccepted(Step(s, events[0]), events[1..], jti);
    }
  }

  lemma StepSparesOthers(s: Sys, e: Event, jti: Jti)
    requires Inv(s) && jti !in s.revoked && !BeingLoggedOut(s, jti)
    requires e.Begin? ==> e.jti != jti
    ensures var s' := Step(s, e); jti !in s'.revoked && !BeingLoggedOut(s', jti)
  {
  }

  function LogoutEvents(id: nat, jti: Jti, d: nat): seq<Event> {
    [Begin(id, jti), Insert(id), ReadClock(id), Deny(id), Tick(d)]
  }

  // A logout on its own: the durable table gains the id for good, and d later the
  // cache denies it until the token's last second is over and no longer than that.
  lemma LogoutDeniesUntilExpiry(s: Sys, id: nat, jti: Jti, d: nat)
    requires id !in s.logouts && jti in s.exps && Representable(s.exps[jti])
    requires s.enabled && jti != "" && !Expired(s, jti)
    ensures var end := Run(s, LogoutEvents(id, jti, d));
            && end.revoked == s.revoked + {jti}
            && end.now == s.now + d
            && (Denied(end, jti) <==> end.now < s.exps[jti] * 1000 + s.now % 1000)
            && forall other | other != jti :: RedisAnswer(end, other) == RedisAnswer(s.(now := s.now + d), other)
  {
    var s3 := Step(Step(Step(s, Begin(id, jti)), Insert(id)), ReadClock(id));
    var s4 := Step(s3, Deny(id));
    LogoutInARow(s, id, jti);
    assert s4.now == s.now && s4.enabled && s4.revoked == s.revoked + {jti};
    assert s4.redis == s.redis[jti := s.now + (s.exps[jti] - s.now / 1000) * 1000];
    hide Step;
    LogoutRuns(s, id, jti, d);
  }

  lemma LogoutInARow(s: Sys, id: nat, jti: Jti)
    requires id !in s.logouts && jti in s.exps && Representable(s.exps[jti])
    ensures var s3 := Step(Step(Step(s, Begin(id, jti)), Insert(id)), ReadClock(id));
            && s3.(logouts := map[]) == s.(revoked := s.revoked + {jti}, logouts := map[])
            && id in s3.logouts && s3.logouts[id] == Logout(jti, Timed(s.exps[jti] - s.now / 1000))
  {
  }

  lemma LogoutRuns(s: Sys, id: nat, jti: Jti, d: nat)
    ensures var s3 := Step(Step(Step(s, Begin(id, jti)), Insert(id)), ReadClock(id));
            var s4 := Step(s3, Deny(id));
            Run(s, LogoutEvents(id, jti, d)) == s4.(now := s4.now + d)
  {
    var e := LogoutEvents(id, jti, d);
    var s1 := Step(s, e[0]);
    var s2 := Step(s1, e[1]);
    var s3 := Step(s2, e[2]);
    var s4 := Step(s3, e[3]);
    assert Step(s4, e[4]) == s4.(now := s4.now + d);
    hide Step;
    assert e[1..][1..] == e[2..] && e[2..][1..] == e[3..] && e[3..][1..] == e[4..] && e[4..][1..] == [];
    assert Run(s, e) == Run(s1, e[1..]) && Run(s1, e[1..]) == Run(s2, e[2..]);
    assert Run(s2, e[2..]) == Run(s3, e[3..]) && Run(s3, e[3..]) == Run(s4, e[4..]);
    assert Run(s4, e[4..]) == Run(Step(s4, e[4]), []);
  }

  // The first write is made exactly for a token whose expiry is a timestamp, from the
  // year -262143 to the year 262142.
  lemma RecordedExactly(s: Sys, id: nat)
    requires id in s.logouts && s.logouts[id].progress.Parsed? && s.logouts[id].jti in s.exps
    ensures var jti := s.logouts[id].jti;
            Step(s, Insert(id)).revoked ==
              if -8_334_601_228_800 <= s.exps[jti] <= 8_210_266_876_799 then s.revoked + {jti} else s.revoked
  {
  }
}
