// Login lockout: failed password and second-factor verifications count towards one
// limit, and reaching it locks the account for a while.
module Lockout {
  import opened Sql

  // A limit of zero or less switches the lockout off.
  datatype Config = Config(max: int, lockout: int)

  datatype Account = Account(failures: int, lockedUntil: Option<int>)

  // One attempt with wrong credentials: when the lock is looked at, and when a
  // new one is set if it comes to that.
  datatype Try = Try(at: int, done: int)

  predicate Locked(a: Account, now: int) {
    a.lockedUntil.Some? && a.lockedUntil.value > now
  }

  // A failed verification; not reached while locked.
  function Fail(c: Config, a: Account, done: int): Account {
    if c.max <= 0 then a
    else if a.failures + 1 >= c.max then Account(0, Some(done + c.lockout))
    else a.(failures := a.failures + 1)
  }

  function Attempt(c: Config, a: Account, t: Try): Account {
    if Locked(a, t.at) then a else Fail(c, a, t.done)
  }

  function Run(c: Config, a: Account, tries: seq<Try>): Account {
    if tries == [] then a else Attempt(c, Run(c, a, tries[..|tries| - 1]), tries[|tries| - 1])
  }

  // How many of the attempts had their credentials verified, in vain.
  function Verifications(c: Config, a: Account, tries: seq<Try>): nat
    decreases |tries|
  {
    if tries == [] then 0
    else (if Locked(a, tries[0].at) then 0 else 1) + Verifications(c, Attempt(c, a, tries[0]), tries[1..])
  }

  // One after the other.
  predicate Sequential(tries: seq<Try>) {
    && (forall i | 0 <= i < |tries| :: tries[i].at <= tries[i].done)
    && (forall i, j | 0 <= i < j < |tries| :: tries[i].done <= tries[j].at)
  }

  predicate Valid(c: Config, a: Account) {
    0 <= a.failures < c.max
  }

  lemma {:induction false} CounterStaysBelowLimit(c: Config, a: Account, tries: seq<Try>)
    requires c.max > 0 && Valid(c, a)
    ensures Valid(c, Run(c, a, tries))
  {
    if tries != [] {
      CounterStaysBelowLimit(c, a, tries[..|tries| - 1]);
    }
  }

  // ── What a lock is ────────────────────────────────────────

  // A refused attempt leaves the row as it is.
  lemma RefusalChangesNothing(c: Config, a: Account, t: Try)
    ensures Locked(a, t.at) ==> Attempt(c, a, t) == a
  {
  }

  // A lock set at some time ends a lockout later, whatever is tried in between.
  lemma {:induction false} LockEndsOnTime(c: Config, a: Account, t: Try, tries: seq<Try>)
    requires c.max > 0 && !Locked(a, t.at) && a.failures + 1 >= c.max
    requires forall i | 0 <= i < |tries| :: tries[i].at < t.done + c.lockout
    ensures Run(c, Attempt(c, a, t), tries) == Account(0, Some(t.done + c.lockout))
  {
    if tries != [] {
      LockEndsOnTime(c, a, t, tries[..|tries| - 1]);
    }
  }

  // Without a limit nothing is ever counted or locked.
  lemma NoLimitNoLock(c: Config, a: Account, t: Try)
    requires c.max <= 0
    ensures Attempt(c, a, t) == a
  {
  }

  // A successful login clears counter and lock: the full number of failures is
  // verified again before the next lock, and none of them locks but the last.
  function Succeed(a: Account): Account {
    Account(0, None)
  }

  lemma {:induction false} SuccessStartsOver(c: Config, a: Account, tries: seq<Try>)
    requires c.max > 0 && |tries| <= c.max
    ensures Run(c, Succeed(a), tries) ==
            if |tries| < c.max then Account(|tries|, None)
            else Account(0, Some(tries[|tries| - 1].done + c.lockout))
  {
    if tries != [] {
      SuccessStartsOver(c, a, tries[..|tries| - 1]);
    }
  }

  // ── The bound ─────────────────────────────────────────────

  // When verification is next possible.
  function Opening(a: Account, now: int): int {
    if Locked(a, now) then a.lockedUntil.value else now
  }

  // What the counter leaves now, and a full count for every lockout that fits.
  function Budget(c: Config, a: Account, now: int, end: int): int
    requires c.lockout > 0
  {
    if Opening(a, now) > end then 0
    else c.max - a.failures + c.max * ((end - Opening(a, now)) / c.lockout)
  }

  lemma ProductMonotone(m: int, x: int, y: int)
    requires m >= 0 && x <= y
    ensures m * x <= m * y
  {
  }

  lemma QuotientIs(x: int, l: int, q: int)
    requires l > 0 && l * q <= x < l * q + l
    ensures x / l == q
  {
    var d := x / l - q;
    assert x == l * (x / l) + x % l;
    assert l * (x / l) == l * q + l * d;
    if d >= 1 {
      ProductMonotone(l, 1, d);
    } else if d <= -1 {
      ProductMonotone(l, d, -1);
    }
  }

  lemma DivisionMonotone(x: int, y: int, l: int)
    requires 0 <= x <= y && l > 0
    ensures 0 <= x / l <= y / l
  {
    var d := x / l - y / l;
    assert x == l * (x / l) + x % l && y == l * (y / l) + y % l;
    assert l * (x / l) == l * (y / l) + l * d;
    if d >= 1 {
      ProductMonotone(l, 1, d);
    }
  }

  lemma LockCostsOne(m: int, x: int, l: int)
    requires l > 0 && x >= l
    ensures m + m * ((x - l) / l) == m * (x / l)
  {
    var q := (x - l) / l;
    assert x - l == l * q + (x - l) % l;
    assert l * (q + 1) == l * q + l;
    QuotientIs(x, l, q + 1);
    assert m * (q + 1) == m * q + m;
  }

  // One attempt costs at least what it adds.
  lemma AttemptSpends(c: Config, a: Account, t: Try, now: int, end: int)
    requires c.max > 0 && c.lockout > 0 && Valid(c, a) && now <= t.at <= t.done && t.at <= end
    ensures Valid(c, Attempt(c, a, t))
    ensures (if Locked(a, t.at) then 0 else 1) + Budget(c, Attempt(c, a, t), t.done, end) <= Budget(c, a, now, end)
  {
    var open := Opening(a, now);
    if Locked(a, t.at) {
      var open' := Opening(a, t.done);
      assert open <= open';
      if open' <= end {
        DivisionMonotone(end - open', end - open, c.lockout);
        ProductMonotone(c.max, (end - open') / c.lockout, (end - open) / c.lockout);
      } else if open <= end {
        DivisionMonotone(0, end - open, c.lockout);
        ProductMonotone(c.max, 0, (end - open) / c.lockout);
      }
    } else {
      assert open <= t.at;
      UnlockedAttemptSpends(c, a, t, open, end);
    }
  }

  lemma UnlockedAttemptSpends(c: Config, a: Account, t: Try, open: int, end: int)
    requires c.max > 0 && c.lockout > 0 && Valid(c, a) && !Locked(a, t.at) && open <= t.at <= t.done && t.at <= end
    ensures 1 + Budget(c, Attempt(c, a, t), t.done, end) <= c.max - a.failures + c.max * ((end - open) / c.lockout)
  {
    var a' := Attempt(c, a, t);
    var open' := Opening(a', t.done);
    DivisionMonotone(0, end - open, c.lockout);
    ProductMonotone(c.max, 0, (end - open) / c.lockout);
    if open' <= end {
      if a.failures + 1 >= c.max {
        LockCostsOne(c.max, end - t.done, c.lockout);
        DivisionMonotone(end - t.done, end - open, c.lockout);
        ProductMonotone(c.max, (end - t.done) / c.lockout, (end - open) / c.lockout);
      } else {
        DivisionMonotone(end - open', end - open, c.lockout);
        ProductMonotone(c.max, (end - open') / c.lockout, (end - open) / c.lockout);
      }
    }
  }

  lemma {:induction false} VerificationsWithinBudget(c: Config, a: Account, tries: seq<Try>, now: int, end: int)
    requires c.max > 0 && c.lockout > 0 && Valid(c, a) && Sequential(tries)
    requires forall i | 0 <= i < |tries| :: now <= tries[i].at <= end
    ensures now <= end ==> Verifications(c, a, tries) <= Budget(c, a, now, end)
    decreases |tries|
  {
    if tries == [] {
      if Opening(a, now) <= end {
        DivisionMonotone(0, end - Opening(a, now), c.lockout);
        ProductMonotone(c.max, 0, (end - Opening(a, now)) / c.lockout);
      }
    } else {
      AttemptSpends(c, a, tries[0], now, end);
      var a' := Attempt(c, a, tries[0]);
      BudgetIsNonNegative(c, a', tries[0].done, end);
      if tries[1..] != [] {
        assert tries[0].done <= tries[1].at;
        VerificationsWithinBudget(c, a', tries[1..], tries[0].done, end);
      }
    }
  }

  lemma BudgetIsNonNegative(c: Config, a: Account, now: int, end: int)
    requires c.max > 0 && c.lockout > 0 && Valid(c, a)
    ensures Budget(c, a, now, end) >= 0
  {
  }

  // Any stretch of attempts that spans w holds at most max * (w / L + 1) failed
  // verifications, wherever in a run it lies.
  lemma WindowBound(c: Config, a: Account, tries: seq<Try>, i: nat, j: nat, w: nat)
    requires c.max > 0 && c.lockout > 0 && Valid(c, a) && Sequential(tries)
    requires i < j <= |tries| && tries[j - 1].at - tries[i].at <= w
    ensures Verifications(c, Run(c, a, tries[..i]), tries[i..j]) <= c.max * (w / c.lockout + 1)
  {
    var b := Run(c, a, tries[..i]);
    var now, end := tries[i].at, tries[i].at + w;
    CounterStaysBelowLimit(c, a, tries[..i]);
    forall k | i <= k < j
      ensures now <= tries[k].at <= end
    {
      assert tries[i].at <= tries[i].done && tries[k].at <= tries[k].done;
      assert k < j - 1 ==> tries[k].done <= tries[j - 1].at;
      assert i < k ==> tries[i].done <= tries[k].at;
    }
    VerificationsWithinBudget(c, b, tries[i..j], now, end);
    BudgetWithinWindow(c, b, now, w);
  }

  lemma BudgetWithinWindow(c: Config, a: Account, now: int, w: nat)
    requires c.max > 0 && c.lockout > 0 && Valid(c, a)
    ensures Budget(c, a, now, now + w) <= c.max * (w / c.lockout + 1)
  {
    DivisionMonotone(0, w, c.lockout);
    ProductMonotone(c.max, 0, w / c.lockout + 1);
    assert c.max * (w / c.lockout + 1) == c.max * (w / c.lockout) + c.max;
    if Opening(a, now) <= now + w {
      DivisionMonotone(now + w - Opening(a, now), w, c.lockout);
      ProductMonotone(c.max, (now + w - Opening(a, now)) / c.lockout, w / c.lockout);
    }
  }

  // ── The bound is reached ──────────────────────────────────

  function Burst(t: int, n: nat): seq<Try> {
    seq(n, _ => Try(t, t))
  }

  // As many attempts as the limit allows, again as soon as each lock ends.
  function Bursts(c: Config, t: int, k: nat): seq<Try>
    requires c.max > 0
    decreases k
  {
    if k == 0 then Burst(t, c.max) else Burst(t, c.max) + Bursts(c, t + c.lockout, k - 1)
  }

  lemma {:induction false} BurstsAreSequential(c: Config, t: int, k: nat)
    requires c.max > 0 && c.lockout > 0
    ensures Sequential(Bursts(c, t, k)) && |Bursts(c, t, k)| > 0
    ensures forall i | 0 <= i < |Bursts(c, t, k)| ::
              t <= Bursts(c, t, k)[i].at == Bursts(c, t, k)[i].done <= t + k * c.lockout
    decreases k
  {
    if k > 0 {
      BurstsAreSequential(c, t + c.lockout, k - 1);
      assert t + c.lockout + (k - 1) * c.lockout == t + k * c.lockout;
    }
  }

  lemma {:induction false} BurstIsVerified(c: Config, a: Account, t: int, n: nat, rest: seq<Try>)
    requires c.max > 0 && c.lockout > 0 && Valid(c, a) && !Locked(a, t) && n == c.max - a.failures
    ensures Verifications(c, a, Burst(t, n) + rest) == n + Verifications(c, Account(0, Some(t + c.lockout)), rest)
    decreases n
  {
    var tries := Burst(t, n) + rest;
    assert tries[0] == Try(t, t);
    assert tries[1..] == Burst(t, n - 1) + rest;
    if n == 1 {
      assert tries[1..] == rest;
    } else {
      BurstIsVerified(c, Attempt(c, a, Try(t, t)), t, n - 1, rest);
    }
  }

  // For every number of lockouts there is a run that spans just those and fills
  // the bound.
  lemma {:induction false} BoundIsReached(c: Config, a: Account, t: int, k: nat)
    requires c.max > 0 && c.lockout > 0 && a.failures == 0 && !Locked(a, t)
    ensures Verifications(c, a, Bursts(c, t, k)) == c.max * (k + 1)
    ensures var tries := Bursts(c, t, k);
            Sequential(tries) && tries != [] && tries[|tries| - 1].at - tries[0].at <= k * c.lockout
    decreases k
  {
    BurstsAreSequential(c, t, k);
    var locked := Account(0, Some(t + c.lockout));
    if k == 0 {
      assert Bursts(c, t, 0) == Burst(t, c.max) + [];
      BurstIsVerified(c, a, t, c.max, []);
    } else {
      BurstIsVerified(c, a, t, c.max, Bursts(c, t + c.lockout, k - 1));
      BoundIsReached(c, locked, t + c.lockout, k - 1);
      assert c.max * (k + 1) == c.max * k + c.max;
    }
  }

  // ── The statements ────────────────────────────────────────

  class UserRow {
    var failedLoginAttempts: int
    var lockedUntil: Option<int>

    function State(): Account
      reads this
    {
      Account(failedLoginAttempts, lockedUntil)
    }

    constructor ()
      ensures State() == Account(0, None)
    {
      failedLoginAttempts, lockedUntil := 0, None;
    }

    method IncrementLoginFailure() returns (n: int)
      modifies this`failedLoginAttempts
      ensures failedLoginAttempts == old(failedLoginAttempts) + 1 == n
    {
      failedLoginAttempts := failedLoginAttempts + 1;
      n := failedLoginAttempts;
    }

    method LockUser(until: int)
      modifies this
      ensures State() == Account(0, Some(until))
    {
      failedLoginAttempts, lockedUntil := 0, Some(until);
    }

    method ResetLoginState()
      modifies this
      ensures State() == Succeed(old(State())) == Account(0, None)
    {
      failedLoginAttempts, lockedUntil := 0, None;
    }

    // An attempt with a wrong password or code; both steps share the counter.
    method FailingAttempt(c: Config, at: int, done: int) returns (verified: bool)
      modifies this
      ensures State() == Attempt(c, old(State()), Try(at, done))
      ensures verified <==> !old(Locked(State(), at))
      ensures !verified ==> State() == old(State())
      ensures c.max > 0 && Valid(c, old(State())) ==> Valid(c, State())
    {
      if lockedUntil.Some? && lockedUntil.value > at {
        return false;
      }
      if c.max > 0 {
        var n := IncrementLoginFailure();
        if n >= c.max {
          LockUser(done + c.lockout);
        }
      }
      return true;
    }
  }
}
