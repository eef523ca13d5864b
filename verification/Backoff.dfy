/** The failure counter of the password gate and its capped exponential
    backoff (backend/internal/authgate/gate.go). Times are nanoseconds since a
    zero that lies before every clock reading, as Go's zero time does. */
module Backoff {
  import opened Powers

  newtype int64 = x: int | -0x8000_0000_0000_0000 <= x < 0x8000_0000_0000_0000

  const SECOND: nat := 1_000_000_000
  const MAX_FAILURES_BEFORE_LOCKOUT: nat := 5
  const LOCKOUT_BASE: nat := 5 * SECOND
  const LOCKOUT_MAX: nat := 300 * SECOND

  type Key = string

  datatype AttemptState = AttemptState(failures: nat, lockedUntil: nat)

  type Attempts = map<Key, AttemptState>

  function Min(a: int, b: int): int {
    if a <= b then a else b
  }

  /** The lockout that starts with the n-th failure in a row, in closed form. */
  function Delay(n: nat): nat {
    if n < MAX_FAILURES_BEFORE_LOCKOUT then 0
    else Min(LOCKOUT_BASE * Pow2(n - MAX_FAILURES_BEFORE_LOCKOUT), LOCKOUT_MAX)
  }

  /** The doubling loop. int64 is Go's time.Duration, so the verifier also shows
      that no step overflows, however many failures there are. */
  method DoubledBackoff(failures: nat) returns (backoff: int64)
    requires failures >= MAX_FAILURES_BEFORE_LOCKOUT
    ensures backoff as int == Delay(failures)
    ensures 0 < backoff
  {
    backoff := 5_000_000_000;
    var i := MAX_FAILURES_BEFORE_LOCKOUT;
    while i < failures && backoff < 300_000_000_000
      invariant MAX_FAILURES_BEFORE_LOCKOUT <= i <= failures
      invariant 0 < backoff < 600_000_000_000
      invariant backoff as int == LOCKOUT_BASE * Pow2(i - MAX_FAILURES_BEFORE_LOCKOUT)
    {
      backoff := backoff * 2;
      i := i + 1;
    }
    if i < failures {
      Pow2Monotone(i - MAX_FAILURES_BEFORE_LOCKOUT, failures - MAX_FAILURES_BEFORE_LOCKOUT);
    }
    if backoff > 300_000_000_000 {
      backoff := 300_000_000_000;
    }
  }

  lemma DelayMonotone(m: nat, n: nat)
    requires m <= n
    ensures Delay(m) <= Delay(n)
  {
    if MAX_FAILURES_BEFORE_LOCKOUT <= m {
      Pow2Monotone(m - MAX_FAILURES_BEFORE_LOCKOUT, n - MAX_FAILURES_BEFORE_LOCKOUT);
    }
  }

  /** The least time k failures in a row can take: the sum of Delay(n) for n < k. */
  function TotalDelay(k: nat): nat {
    if k <= 1 then 0 else TotalDelay(k - 1) + Delay(k - 1)
  }

  /** From the eleventh failure on every further guess costs the full five minutes. */
  lemma {:induction false} TotalDelayClosedForm(k: nat)
    requires k >= 11
    ensures TotalDelay(k) == 315 * SECOND + (k - 11) * LOCKOUT_MAX
  {
    if k == 11 {
      assert Pow2(2) == 4 && Pow2(4) == 16;
      assert TotalDelay(5) == 0;
      assert TotalDelay(8) == 35 * SECOND;
    } else {
      TotalDelayClosedForm(k - 1);
      assert Pow2(6) == 64;
      Pow2Monotone(6, k - 1 - MAX_FAILURES_BEFORE_LOCKOUT);
    }
  }

  predicate Limited(a: Attempts, key: Key, now: nat) {
    key in a && a[key].lockedUntil > now
  }

  function AfterFailure(a: Attempts, key: Key, now: nat): Attempts {
    var st := if key in a then a[key] else AttemptState(0, 0);
    var n := st.failures + 1;
    a[key := AttemptState(n, if n >= MAX_FAILURES_BEFORE_LOCKOUT then now + Delay(n) else st.lockedUntil)]
  }

  function AfterSuccess(a: Attempts, key: Key): Attempts {
    a - {key}
  }

  /** The entry after failures at those times. */
  function AfterFailures(a: Attempts, key: Key, times: seq<nat>): Attempts {
    if times == [] then a else AfterFailure(AfterFailures(a, key, times[..|times| - 1]), key, times[|times| - 1])
  }

  /** A success wipes the slate: whatever the key's history, it is not limited until its
      fifth failure from then on, and nobody else's entry is touched. */
  lemma {:induction false} SuccessStartsOver(a: Attempts, key: Key, times: seq<nat>, now: nat, other: Key)
    requires other != key
    ensures var after := AfterFailures(AfterSuccess(a, key), key, times);
      && (key in after <==> times != []) && (key in after ==> after[key].failures == |times|)
      && (|times| < MAX_FAILURES_BEFORE_LOCKOUT ==> !Limited(after, key, now))
      && (other in after <==> other in a) && (other in a ==> after[other] == a[other])
      && (times != [] && |times| < MAX_FAILURES_BEFORE_LOCKOUT ==> after[key].lockedUntil == 0)
  {
    if times != [] {
      SuccessStartsOver(a, key, times[..|times| - 1], now, other);
    }
  }

  /** Gate.attempts with the three methods that touch it, each one critical
      section of attemptsMu. */
  class AttemptTable {
    var attempts: Attempts

    constructor ()
      ensures attempts == map[]
    {
      attempts := map[];
    }

    method RateLimited(key: Key, now: nat) returns (remaining: int, limited: bool)
      ensures limited == Limited(attempts, key, now)
      ensures if limited then remaining > 0 else remaining == 0
      ensures forall t: nat :: now <= t ==> (Limited(attempts, key, t) <==> t < now + remaining)
    {
      if key !in attempts {
        return 0, false;
      }
      remaining := attempts[key].lockedUntil - now;
      if remaining > 0 {
        return remaining, true;
      }
      return 0, false;
    }

    method RecordFailure(key: Key, now: nat)
      modifies this
      ensures attempts == AfterFailure(old(attempts), key, now)
    {
      if key !in attempts {
        attempts := attempts[key := AttemptState(0, 0)];
      }
      var failures := attempts[key].failures + 1;
      attempts := attempts[key := attempts[key].(failures := failures)];
      if failures >= MAX_FAILURES_BEFORE_LOCKOUT {
        var backoff := DoubledBackoff(failures);
        attempts := attempts[key := attempts[key].(lockedUntil := now + backoff as int)];
      }
    }

    method RecordSuccess(key: Key)
      modifies this
      ensures attempts == AfterSuccess(old(attempts), key)
    {
      attempts := attempts - {key};
    }
  }
}
