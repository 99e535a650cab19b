// Login attempts in parallel: each reads the row, looks at the lock, verifies in
// vain, counts, and at the limit takes the clock and writes a lock, with any other
// attempt's steps in between. How far this exceeds the sequential bound.
module LockoutParallel {
  import opened Sql
  import opened Lockout

  // Read holds the lock as the row had it; Verified has used up a verification.
  datatype Progress =
    | Read(lockedUntil: Option<int>)
    | Verified
    | AtLimit
    | Timed(until: int, readAt: int)

  datatype Sys = Sys(now: int, account: Account, attempts: map<nat, Progress>)

  datatype Event =
    | Tick(d: nat)
    | Load(id: nat)
    | Check(id: nat)
    | Increment(id: nat)
    | ReadClock(id: nat)
    | Lock(id: nat)

  predicate Open(lockedUntil: Option<int>, now: int) {
    lockedUntil.None? || lockedUntil.value <= now
  }

  // Whether the event verifies a password or code.
  predicate Verifies(s: Sys, e: Event) {
    e.Check? && e.id in s.attempts && s.attempts[e.id].Read? && Open(s.attempts[e.id].lockedUntil, s.now)
  }

  function Step(c: Config, s: Sys, e: Event): Sys {
    match e
    case Tick(d) => s.(now := s.now + d)
    case Load(id) => if id in s.attempts then s else s.(attempts := s.attempts[id := Read(s.account.lockedUntil)])
    case Check(id) =>
      if id in s.attempts && s.attempts[id].Read? then
        s.(attempts := if Open(s.attempts[id].lockedUntil, s.now) then s.attempts[id := Verified] else s.attempts - {id})
      else s
    case Increment(id) =>
      if id in s.attempts && s.attempts[id].Verified? then
        var n := s.account.failures + 1;
        s.(account := s.account.(failures := n),
           attempts := if n >= c.max then s.attempts[id := AtLimit] else s.attempts - {id})
      else s
    case ReadClock(id) =>
      if id in s.attempts && s.attempts[id].AtLimit? then
        s.(attempts := s.attempts[id := Timed(s.now + c.lockout, s.now)])
      else s
    case Lock(id) =>
      if id in s.attempts && s.attempts[id].Timed? then
        s.(account := Account(0, Some(s.attempts[id].until)), attempts := s.attempts - {id})
      else s
  }

  function Run(c: Config, s: Sys, events: seq<Event>): Sys
    decreases |events|
  {
    if events == [] then s else Run(c, Step(c, s, events[0]), events[1..])
  }

  function Verifications(c: Config, s: Sys, events: seq<Event>): nat
    decreases |events|
  {
    if events == [] then 0
    else (if Verifies(s, events[0]) then 1 else 0) + Verifications(c, Step(c, s, events[0]), events[1..])
  }

  // ── The same account ──────────────────────────────────────

  // Steps in a row with nobody else at work make the attempt of module Lockout.
  lemma AloneIsAnAttempt(c: Config, s: Sys, id: nat)
    requires c.max > 0 && s.attempts == map[]
    ensures var loaded := Step(c, s, Load(id));
            var counted := Step(c, Step(c, loaded, Check(id)), Increment(id));
            var end := Step(c, Step(c, counted, ReadClock(id)), Lock(id));
            && end == s.(account := Attempt(c, s.account, Try(s.now, s.now)))
            && (Verifies(loaded, Check(id)) <==> !Locked(s.account, s.now))
  {
    var loaded := Step(c, s, Load(id));
    assert loaded.attempts == map[id := Read(s.account.lockedUntil)];
    var checked := Step(c, loaded, Check(id));
    if Locked(s.account, s.now) {
      assert checked == s;
    } else {
      assert checked.attempts == map[id := Verified];
      var counted := Step(c, checked, Increment(id));
      if s.account.failures + 1 >= c.max {
        assert counted.attempts == map[id := AtLimit];
        assert Step(c, counted, ReadClock(id)).attempts == map[id := Timed(s.now + c.lockout, s.now)];
      } else {
        assert counted.attempts == map[];
      }
    }
  }

  // Only counting and locking touch the row; a refused attempt does neither.
  lemma OthersTouchNothing(c: Config, s: Sys, e: Event)
    requires !e.Increment? && !e.Lock?
    ensures Step(c, s, e).account == s.account
  {
  }

  // ── What a run has to respect ─────────────────────────────

  // At most width attempts are in flight, and no lock is written more than delay
  // after its clock was read.
  predicate Within(s: Sys, e: Event, width: nat, delay: nat) {
    && (e.Load? && e.id !in s.attempts ==> |s.attempts| < width)
    && (e.Lock? && e.id in s.attempts && s.attempts[e.id].Timed? ==> s.now - s.attempts[e.id].readAt <= delay)
  }

  predicate WithinRun(c: Config, s: Sys, events: seq<Event>, width: nat, delay: nat)
    decreases |events|
  {
    events == [] || (Within(s, events[0], width, delay) && WithinRun(c, Step(c, s, events[0]), events[1..], width, delay))
  }

  function Readers(s: Sys): set<nat> {
    set id | id in s.attempts && s.attempts[id].Read?
  }

  function Spent(s: Sys): set<nat> {
    set id | id in s.attempts && !s.attempts[id].Read?
  }

  // Timed attempts locked for the configured time when they read the clock.
  predicate Sound(c: Config, s: Sys) {
    && s.account.failures >= 0
    && forall id | id in s.attempts && s.attempts[id].Timed? ::
         s.attempts[id].until == s.attempts[id].readAt + c.lockout
  }

  // ── The budget ────────────────────────────────────────────

  function Max(a: int, b: int): int {
    if a >= b then a else b
  }

  // What may still be verified before the next lock is written: attempts that finish
  // without reaching the limit, and those in flight.
  function Round(c: Config, s: Sys, width: nat): int {
    width - |Spent(s)| + Max(0, c.max - 1 - s.account.failures)
  }

  function FullRound(c: Config, width: nat): int {
    c.max - 1 + width
  }

  // A lock just written keeps attempts out until barrier, but for the stale ones
  // that read the row before.
  ghost predicate Barred(c: Config, s: Sys, barrier: int, stale: set<nat>, period: int) {
    && stale <= Readers(s)
    && barrier <= s.now + period
    && (s.now < barrier ==>
      && s.account.lockedUntil.Some? && s.account.lockedUntil.value >= barrier
      && forall id | id in Readers(s) && id !in stale ::
           s.attempts[id].lockedUntil.Some? && s.attempts[id].lockedUntil.value >= barrier)
  }

  function Budget(c: Config, s: Sys, barrier: int, stale: set<nat>, width: nat, period: int, end: int): int
    requires period > 0
  {
    if s.now >= barrier then Round(c, s, width) + FullRound(c, width) * ((end - s.now) / period)
    else |stale| + (if barrier <= end then FullRound(c, width) * ((end - barrier) / period + 1) else 0)
  }

  lemma InFlight(s: Sys)
    ensures |Readers(s)| + |Spent(s)| == |s.attempts|
  {
    assert Readers(s) + Spent(s) == s.attempts.Keys && Readers(s) !! Spent(s);
  }

  lemma StepKeepsSound(c: Config, s: Sys, e: Event, width: nat, delay: nat)
    requires Sound(c, s) && |s.attempts| <= width && Within(s, e, width, delay)
    ensures Sound(c, Step(c, s, e)) && |Step(c, s, e).attempts| <= width && s.now <= Step(c, s, e).now
  {
    var s' := Step(c, s, e);
    if e.Load? && e.id !in s.attempts {
      assert s'.attempts.Keys == s.attempts.Keys + {e.id};
    } else if !e.Tick? && e.id in s.attempts {
      assert s'.attempts.Keys == s.attempts.Keys || s'.attempts.Keys == s.attempts.Keys - {e.id};
    }
  }

  // What one event verifies it takes from the budget; a lock written while none is
  // in force starts a new barrier, for which every reader is stale.
  lemma StepSpends(
    c: Config, s: Sys, e: Event, width: nat, delay: nat, barrier: int, stale: set<nat>, end: int)
    returns (barrier': int, stale': set<nat>)
    requires c.max > 0 && delay < c.lockout && Sound(c, s) && |s.attempts| <= width && Within(s, e, width, delay)
    requires Barred(c, s, barrier, stale, c.lockout - delay)
    requires s.now + (if e.Tick? then e.d else 0) <= end
    ensures var s' := Step(c, s, e);
            && Barred(c, s', barrier', stale', c.lockout - delay)
            && (if Verifies(s, e) then 1 else 0) + Budget(c, s', barrier', stale', width, c.lockout - delay, end)
               <= Budget(c, s, barrier, stale, width, c.lockout - delay, end)
  {
    hide Step, Budget, Barred, Sound, Readers;
    barrier', stale' := barrier, stale;
    if e.Tick? {
      TickSpends(c, s, e.d, width, barrier, stale, c.lockout - delay, end);
    } else if e.Lock? && e.id in s.attempts && s.attempts[e.id].Timed? && s.now >= barrier {
      barrier', stale' := s.now + c.lockout - delay, Readers(s);
      FirstLockSpends(c, s, e.id, width, delay, barrier, stale, end);
    } else if e.Lock? {
      LaterLockSpends(c, s, e.id, width, delay, barrier, stale, end);
    } else if e.Check? {
      stale' := stale - {e.id};
      CheckSpends(c, s, e.id, width, barrier, stale, c.lockout - delay, end);
    } else {
      OtherSpends(c, s, e, width, barrier, stale, c.lockout - delay, end);
    }
  }

  lemma TickSpends(c: Config, s: Sys, d: nat, width: nat, barrier: int, stale: set<nat>, period: int, end: int)
    requires c.max > 0 && period > 0 && Sound(c, s) && |s.attempts| <= width
    requires Barred(c, s, barrier, stale, period) && s.now + d <= end
    ensures var s' := Step(c, s, Tick(d));
            && Barred(c, s', barrier, stale, period)
            && Budget(c, s', barrier, stale, width, period, end) <= Budget(c, s, barrier, stale, width, period, end)
  {
    var s' := Step(c, s, Tick(d));
    assert s' == s.(now := s.now + d);
    assert Readers(s') == Readers(s) && Spent(s') == Spent(s);
    assert Barred(c, s', barrier, stale, period) && s.account.failures >= 0;
    assert Round(c, s', width) == Round(c, s, width) <= FullRound(c, width);
    hide Step, Barred, Readers, Spent, Sound, Round;
    var full := FullRound(c, width);
    if s.now >= barrier {
      LessTimeLessBudget(full, end - s'.now, end - s.now, period);
    } else if s'.now >= barrier {
      LessTimeLessBudget(full, end - s'.now, end - barrier, period);
      OneMore(full, (end - barrier) / period);
    }
  }

  lemma LessTimeLessBudget(full: int, x: int, y: int, period: int)
    requires full >= 0 && 0 <= x <= y && period > 0
    ensures full * (x / period) <= full * (y / period)
  {
    DivisionMonotone(x, y, period);
    ProductMonotone(full, x / period, y / period);
  }

  lemma FirstLockSpends(
    c: Config, s: Sys, id: nat, width: nat, delay: nat, barrier: int, stale: set<nat>, end: int)
    requires c.max > 0 && delay < c.lockout && Sound(c, s) && |s.attempts| <= width && s.now <= end && s.now >= barrier
    requires id in s.attempts && s.attempts[id].Timed? && s.now - s.attempts[id].readAt <= delay
    ensures var s', period := Step(c, s, Lock(id)), c.lockout - delay;
            && Barred(c, s', s.now + period, Readers(s), period)
            && Budget(c, s', s.now + period, Readers(s), width, period, end)
               <= Budget(c, s, barrier, stale, width, period, end)
  {
    var s', period, full := Step(c, s, Lock(id)), c.lockout - delay, FullRound(c, width);
    assert Readers(s') == Readers(s);
    InFlight(s);
    DivisionMonotone(0, end - s.now, period);
    ProductMonotone(full, 0, (end - s.now) / period);
    if s.now + period <= end {
      LockCostsOne(full, end - s.now, period);
      var k := (end - s.now - period) / period;
      assert full * (k + 1) == full * k + full;
    }
  }

  lemma LaterLockSpends(
    c: Config, s: Sys, id: nat, width: nat, delay: nat, barrier: int, stale: set<nat>, end: int)
    requires c.max > 0 && delay < c.lockout && Sound(c, s) && Within(s, Lock(id), width, delay)
    requires Barred(c, s, barrier, stale, c.lockout - delay)
    requires id in s.attempts && s.attempts[id].Timed? ==> s.now < barrier
    ensures var s', period := Step(c, s, Lock(id)), c.lockout - delay;
            && Barred(c, s', barrier, stale, period)
            && Budget(c, s', barrier, stale, width, period, end) == Budget(c, s, barrier, stale, width, period, end)
  {
    assert Readers(Step(c, s, Lock(id))) == Readers(s);
  }

  lemma CheckSpends(c: Config, s: Sys, id: nat, width: nat, barrier: int, stale: set<nat>, period: int, end: int)
    requires period > 0 && Barred(c, s, barrier, stale, period)
    ensures var s' := Step(c, s, Check(id));
            && Barred(c, s', barrier, stale - {id}, period)
            && (if Verifies(s, Check(id)) then 1 else 0) + Budget(c, s', barrier, stale - {id}, width, period, end)
               <= Budget(c, s, barrier, stale, width, period, end)
  {
    CheckKeepsBarred(c, s, id, barrier, stale, period);
    CheckMoves(c, s, id);
    var rest := stale - {id};
    if id in stale {
      assert stale == rest + {id};
    } else {
      assert rest == stale;
    }
    assert Verifies(s, Check(id)) && s.now < barrier ==> id in stale;
    hide Barred, Readers, Spent, Step, Verifies;
  }

  // A checked attempt is no longer a reader; it is in flight if it went on to verify.
  lemma CheckMoves(c: Config, s: Sys, id: nat)
    ensures var s' := Step(c, s, Check(id));
            && s'.now == s.now && s'.account == s.account
            && Readers(s') == Readers(s) - {id}
            && |Spent(s')| == |Spent(s)| + (if Verifies(s, Check(id)) then 1 else 0)
  {
    var s' := Step(c, s, Check(id));
    assert Spent(s') == if Verifies(s, Check(id)) then Spent(s) + {id} else Spent(s);
  }

  lemma CheckKeepsBarred(c: Config, s: Sys, id: nat, barrier: int, stale: set<nat>, period: int)
    requires Barred(c, s, barrier, stale, period)
    ensures Barred(c, Step(c, s, Check(id)), barrier, stale - {id}, period)
  {
    assert Readers(Step(c, s, Check(id))) == Readers(s) - {id};
  }

  lemma OtherSpends(c: Config, s: Sys, e: Event, width: nat, barrier: int, stale: set<nat>, period: int, end: int)
    requires period > 0 && Barred(c, s, barrier, stale, period) && (e.Load? || e.Increment? || e.ReadClock?)
    ensures var s' := Step(c, s, e);
            && Barred(c, s', barrier, stale, period)
            && !Verifies(s, e)
            && Budget(c, s', barrier, stale, width, period, end) <= Budget(c, s, barrier, stale, width, period, end)
  {
    var s' := Step(c, s, e);
    if e.Load? && e.id !in s.attempts {
      LoadSpends(c, s, e.id, barrier, stale, period);
    } else if e.Increment? && e.id in s.attempts && s.attempts[e.id].Verified? {
      IncrementSpends(c, s, e.id, width);
    } else {
      assert Readers(s') == Readers(s) && Spent(s') == Spent(s);
    }
  }

  lemma LoadSpends(c: Config, s: Sys, id: nat, barrier: int, stale: set<nat>, period: int)
    requires Barred(c, s, barrier, stale, period) && id !in s.attempts
    ensures Barred(c, Step(c, s, Load(id)), barrier, stale, period) && Spent(Step(c, s, Load(id))) == Spent(s)
  {
    assert Readers(Step(c, s, Load(id))) == Readers(s) + {id};
  }

  lemma IncrementSpends(c: Config, s: Sys, id: nat, width: nat)
    requires id in s.attempts && s.attempts[id].Verified?
    ensures var s' := Step(c, s, Increment(id));
            && Readers(s') == Readers(s) && s'.account.lockedUntil == s.account.lockedUntil
            && (forall q | q in Readers(s) :: s'.attempts[q] == s.attempts[q])
            && Round(c, s', width) == Round(c, s, width)
  {
    assert Spent(Step(c, s, Increment(id))) == if s.account.failures + 1 >= c.max then Spent(s) else Spent(s) - {id};
  }

  lemma {:induction false} RunSpends(
    c: Config, s: Sys, events: seq<Event>, width: nat, delay: nat, barrier: int, stale: set<nat>, end: int)
    requires c.max > 0 && delay < c.lockout && Sound(c, s) && |s.attempts| <= width
    requires WithinRun(c, s, events, width, delay) && Barred(c, s, barrier, stale, c.lockout - delay)
    requires s.now <= end && Run(c, s, events).now <= end
    ensures Verifications(c, s, events) <= Budget(c, s, barrier, stale, width, c.lockout - delay, end)
    decreases |events|
  {
    hide Step, Barred, Budget, Within, Sound;
    if events == [] {
      BudgetIsNonNegative(c, s, barrier, stale, width, c.lockout - delay, end);
    } else {
      var s1 := Step(c, s, events[0]);
      StepKeepsSound(c, s, events[0], width, delay);
      TimeGoesOn(c, s1, events[1..]);
      assert s1.now == s.now + (if events[0].Tick? then events[0].d else 0) by { StepTime(c, s, events[0]); }
      var barrier', stale' := StepSpends(c, s, events[0], width, delay, barrier, stale, end);
      RunSpends(c, s1, events[1..], width, delay, barrier', stale', end);
    }
  }

  lemma StepTime(c: Config, s: Sys, e: Event)
    ensures Step(c, s, e).now == s.now + (if e.Tick? then e.d else 0)
  {
  }

  lemma {:induction false} TimeGoesOn(c: Config, s: Sys, events: seq<Event>)
    ensures s.now <= Run(c, s, events).now
    decreases |events|
  {
    if events != [] {
      TimeGoesOn(c, Step(c, s, events[0]), events[1..]);
    }
  }

  lemma BudgetIsNonNegative(c: Config, s: Sys, barrier: int, stale: set<nat>, width: nat, period: int, end: int)
    requires c.max > 0 && period > 0 && |s.attempts| <= width && s.now <= end
    ensures Budget(c, s, barrier, stale, width, period, end) >= 0
  {
    InFlight(s);
    var full := FullRound(c, width);
    DivisionMonotone(0, end - s.now, period);
    ProductMonotone(full, 0, (end - s.now) / period);
    if barrier <= end && s.now < barrier {
      DivisionMonotone(0, end - barrier, period);
      ProductMonotone(full, 0, (end - barrier) / period + 1);
    }
  }

  // However the steps interleave, from any state of the counter and the lock: with
  // at most width attempts in flight, any stretch of w holds at most
  // (max - 1 + width) * (w / (L - delay) + 1) failed verifications. One attempt at a
  // time, written at once, gives the sequential bound.
  lemma ParallelWindowBound(c: Config, s: Sys, events: seq<Event>, width: nat, delay: nat, w: nat)
    requires c.max > 0 && delay < c.lockout && Sound(c, s) && |s.attempts| <= width
    requires WithinRun(c, s, events, width, delay) && Run(c, s, events).now <= s.now + w
    ensures Verifications(c, s, events) <= (c.max - 1 + width) * (w / (c.lockout - delay) + 1)
  {
    RunSpends(c, s, events, width, delay, s.now, {}, s.now + w);
    OpeningBudget(c, s, width, c.lockout - delay, w);
  }

  lemma OpeningBudget(c: Config, s: Sys, width: nat, period: int, w: nat)
    requires c.max > 0 && period > 0 && s.account.failures >= 0
    ensures Budget(c, s, s.now, {}, width, period, s.now + w) <= (c.max - 1 + width) * (w / period + 1)
  {
    hide Spent;
    var full, k := c.max - 1 + width, w / period;
    assert Budget(c, s, s.now, {}, width, period, s.now + w) == Round(c, s, width) + full * k;
    OneMore(full, k);
  }

  lemma OneMore(full: int, k: int)
    ensures full * (k + 1) == full * k + full
  {
  }

  // ── The sequential bound is exceeded ──────────────────────

  // The attempts with these ids read the row one after the other, and then look at
  // the lock one after the other.
  function Loads(n: nat): seq<Event> {
    seq(n, i requires 0 <= i < n => Load(i))
  }

  function Checks(n: nat): (events: seq<Event>)
    ensures |events| == n
  {
    seq(n, i requires 0 <= i < n => Check(i))
  }

  function Reading(n: nat, lockedUntil: Option<int>): (attempts: map<nat, Progress>)
    ensures forall id: nat :: id in attempts <==> id < n
    ensures forall id: nat | id < n :: attempts[id] == Read(lockedUntil)
  {
    if n == 0 then map[] else Reading(n - 1, lockedUntil)[n - 1 := Read(lockedUntil)]
  }

  lemma {:induction false} LoadsRead(c: Config, s: Sys, n: nat)
    requires s.attempts == map[]
    ensures Run(c, s, Loads(n)) == s.(attempts := Reading(n, s.account.lockedUntil)) && Verifications(c, s, Loads(n)) == 0
    ensures WithinRun(c, s, Loads(n), n, 0)
    decreases n
  {
    LoadsOnward(c, s, 0, n);
    assert Loads(n)[0..] == Loads(n);
    assert s == s.(attempts := Reading(0, s.account.lockedUntil));
  }

  lemma {:induction false} LoadsOnward(c: Config, s: Sys, i: nat, n: nat)
    requires i <= n && s.attempts == Reading(i, s.account.lockedUntil)
    ensures Run(c, s, Loads(n)[i..]) == s.(attempts := Reading(n, s.account.lockedUntil))
    ensures Verifications(c, s, Loads(n)[i..]) == 0 && WithinRun(c, s, Loads(n)[i..], n, 0)
    decreases n - i
  {
    if i == n {
      assert s == s.(attempts := Reading(n, s.account.lockedUntil));
    } else {
      var rest := Loads(n)[i..];
      assert rest[0] == Load(i) && rest[1..] == Loads(n)[i + 1..];
      ReadingCount(i, s.account.lockedUntil);
      var s1 := Step(c, s, Load(i));
      assert s1.attempts == Reading(i + 1, s.account.lockedUntil);
      LoadsOnward(c, s1, i + 1, n);
    }
  }

  lemma {:induction false} ReadingCount(n: nat, lockedUntil: Option<int>)
    ensures |Reading(n, lockedUntil)| == n
    decreases n
  {
    if n > 0 {
      ReadingCount(n - 1, lockedUntil);
      assert Reading(n, lockedUntil).Keys == Reading(n - 1, lockedUntil).Keys + {n - 1};
    }
  }

  lemma {:induction false} ChecksVerify(c: Config, s: Sys, i: nat, n: nat)
    requires i <= n && forall id: nat | i <= id < n :: id in s.attempts && s.attempts[id].Read?
    requires forall id: nat | i <= id < n :: Open(s.attempts[id].lockedUntil, s.now)
    ensures Verifications(c, s, Checks(n)[i..]) == n - i && WithinRun(c, s, Checks(n)[i..], n, 0)
    ensures Run(c, s, Checks(n)[i..]).now == s.now
    decreases n - i
  {
    if i < n {
      var rest := Checks(n)[i..];
      assert rest[0] == Check(i) && rest[1..] == Checks(n)[i + 1..];
      ChecksVerify(c, Step(c, s, Check(i)), i + 1, n);
    }
  }

  lemma {:induction false} RunsAppend(c: Config, s: Sys, first: seq<Event>, second: seq<Event>, width: nat, delay: nat)
    ensures Run(c, s, first + second) == Run(c, Run(c, s, first), second)
    ensures Verifications(c, s, first + second)
         == Verifications(c, s, first) + Verifications(c, Run(c, s, first), second)
    ensures WithinRun(c, s, first + second, width, delay) <==>
            WithinRun(c, s, first, width, delay) && WithinRun(c, Run(c, s, first), second, width, delay)
    decreases |first|
  {
    hide Step, Within;
    if first == [] {
      assert first + second == second;
    } else {
      assert (first + second)[1..] == first[1..] + second;
      RunsAppend(c, Step(c, s, first[0]), first[1..], second, width, delay);
    }
  }

  // One attempt on its own that does not reach the limit.
  function Singly(n: nat): seq<Event> {
    if n == 0 then [] else [Load(0), Check(0), Increment(0)] + Singly(n - 1)
  }

  lemma {:induction false} SinglyCounts(c: Config, s: Sys, n: nat, width: nat)
    requires s.attempts == map[] && Open(s.account.lockedUntil, s.now) && s.account.failures + n < c.max && width > 0
    ensures Run(c, s, Singly(n)) == s.(account := s.account.(failures := s.account.failures + n))
    ensures Verifications(c, s, Singly(n)) == n && WithinRun(c, s, Singly(n), width, 0)
    decreases n
  {
    if n > 0 {
      SingleAttempt(c, s, width);
      var s3 := s.(account := s.account.(failures := s.account.failures + 1));
      RunsAppend(c, s, [Load(0), Check(0), Increment(0)], Singly(n - 1), width, 0);
      SinglyCounts(c, s3, n - 1, width);
    }
  }

  lemma SingleAttempt(c: Config, s: Sys, width: nat)
    requires s.attempts == map[] && Open(s.account.lockedUntil, s.now) && s.account.failures + 1 < c.max && width > 0
    ensures var events := [Load(0), Check(0), Increment(0)];
            && Run(c, s, events) == s.(account := s.account.(failures := s.account.failures + 1))
            && Verifications(c, s, events) == 1 && WithinRun(c, s, events, width, 0)
  {
    var events := [Load(0), Check(0), Increment(0)];
    var s1 := Step(c, s, Load(0));
    var s2 := Step(c, s1, Check(0));
    var s3 := Step(c, s2, Increment(0));
    assert s1 == s.(attempts := map[0 := Read(s.account.lockedUntil)]);
    assert s2 == s.(attempts := map[0 := Verified]);
    assert s3 == s.(account := s.account.(failures := s.account.failures + 1));
    assert events[1..] == [Check(0), Increment(0)] && events[1..][1..] == [Increment(0)];
    hide Step;
    assert Run(c, s2, [Increment(0)]) == s3 && Verifications(c, s2, [Increment(0)]) == 0;
    assert WithinRun(c, s2, [Increment(0)], width, 0);
    assert Run(c, s1, events[1..]) == s3 && Verifications(c, s1, events[1..]) == 1;
    assert WithinRun(c, s1, events[1..], width, 0);
  }

  // In no time at all a run with width attempts in flight verifies as often as one
  // full round allows: more than the sequential limit as soon as width is above one.
  lemma RoundIsReached(c: Config, s: Sys, width: nat)
    requires c.max > 0 && width > 0 && s.attempts == map[] && s.account.failures == 0 && Open(s.account.lockedUntil, s.now)
    ensures var events := Singly(c.max - 1) + (Loads(width) + Checks(width));
            && WithinRun(c, s, events, width, 0) && Run(c, s, events).now == s.now
            && Verifications(c, s, events) == c.max - 1 + width
  {
    hide Step, Within, WithinRun, Run, Verifications, Singly, Loads, Checks, Reading;
    var n := c.max - 1;
    var s1 := s.(account := s.account.(failures := n));
    SinglyCounts(c, s, n, width);
    LoadsRead(c, s1, width);
    var s2 := Run(c, s1, Loads(width));
    ChecksVerify(c, s2, 0, width);
    assert |Checks(width)| == width && Checks(width)[0..] == Checks(width);
    RunsAppend(c, s1, Loads(width), Checks(width), width, 0);
    RunsAppend(c, s, Singly(n), Loads(width) + Checks(width), width, 0);
  }
}
