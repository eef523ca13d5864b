/** How slowly a key can guess, in every interleaving. */
module GateLockout {
  import opened Backoff
  import opened Gate
  import opened Options
  import opened GateLocks

  /** Times of key's recorded failures since its last success, oldest first. */
  function Streak(log: seq<Event>, key: Key): seq<nat> {
    if log == [] then []
    else
      var e, rest := log[|log| - 1], log[..|log| - 1];
      if e.key != key then Streak(rest, key)
      else if e.Succeeded? then []
      else Streak(rest, key) + [e.at]
  }

  /** Times of all of key's failures in a stretch of the log. */
  function FailuresIn(log: seq<Event>, key: Key): seq<nat> {
    if log == [] then []
    else
      var e, rest := log[|log| - 1], log[..|log| - 1];
      FailuresIn(rest, key) + if e.Failed? && e.key == key then [e.at] else []
  }

  predicate NoSuccess(log: seq<Event>, key: Key) {
    forall i :: 0 <= i < |log| ==> !(log[i].Succeeded? && log[i].key == key)
  }

  /** Between the i-th failure and the next lies at least the i-th lockout. */
  predicate Spaced(f: seq<nat>) {
    forall i :: 1 <= i < |f| ==> f[i - 1] + Delay(i) <= f[i]
  }

  predicate SpacedUpTo(log: seq<Event>, n: nat, key: Key)
    requires n <= |log|
  {
    Spaced(Streak(log[..n], key))
  }

  /** The attempts entry of key is a summary of its streak. */
  predicate Summarizes(s: State, key: Key) {
    var f := Streak(s.log, key);
    if f == [] then key !in s.attempts
    else
      && key in s.attempts
      && s.attempts[key].failures == |f|
      && s.attempts[key].lockedUntil == (if |f| >= MAX_FAILURES_BEFORE_LOCKOUT then f[|f| - 1] + Delay(|f|) else 0)
      && f[|f| - 1] <= s.now
  }

  predicate PastCheck(t: Thread) {
    t.pc.Queueing? || t.pc.Verifying? || t.pc.Recording?
  }

  ghost predicate LockoutInv(s: State) {
    && (forall key :: Summarizes(s, key))
    && (forall key, n: nat :: n <= |s.log| ==> SpacedUpTo(s.log, n, key))
    && (forall tid :: tid in s.threads && PastCheck(s.threads[tid]) ==> !Limited(s.attempts, s.threads[tid].key, s.now))
  }

  /** What recording a verification result changes. */
  lemma RecordEffect(s: State, tid: Tid, c: Choice)
    requires CanStep(s, tid) && s.threads[tid].pc.Recording?
    ensures var s', t := Work(s, tid, c), s.threads[tid];
      && s'.now == s.now
      && s'.threads.Keys == s.threads.Keys && !PastCheck(s'.threads[tid])
      && (forall x :: x in s.threads && x != tid ==> s'.threads[x] == s.threads[x])
      && if t.pc.matched
         then s'.attempts == AfterSuccess(s.attempts, t.key) && s'.log == s.log + [Succeeded(t.key, s.now)]
         else s'.attempts == AfterFailure(s.attempts, t.key, s.now) && s'.log == s.log + [Failed(t.key, s.now)]
  {
  }

  lemma RecordSummary(s: State, tid: Tid, c: Choice, key: Key)
    requires LockoutInv(s) && CanStep(s, tid) && s.threads[tid].pc.Recording?
    ensures Summarizes(Work(s, tid, c), key) && Spaced(Streak(Work(s, tid, c).log, key))
  {
    hide Work, LocksInv;
    RecordEffect(s, tid, c);
    var s', me := Work(s, tid, c), s.threads[tid].key;
    assert s'.log[..|s'.log| - 1] == s.log && s.log[..|s.log|] == s.log;
    assert Summarizes(s, key) && SpacedUpTo(s.log, |s.log|, key);
    if key == me && !s.threads[tid].pc.matched {
      var f := Streak(s.log, key);
      assert Streak(s'.log, key) == f + [s.now];
      if f != [] {
        assert f[|f| - 1] + Delay(|f|) <= s.now;
      }
    }
  }

  lemma RecordKeeps(s: State, tid: Tid, c: Choice)
    requires LocksInv(s) && LockoutInv(s) && CanStep(s, tid) && s.threads[tid].pc.Recording?
    ensures LockoutInv(Work(s, tid, c))
  {
    hide Work, Delay, Streak, Summarizes;
    RecordEffect(s, tid, c);
    var s', me := Work(s, tid, c), s.threads[tid].key;
    forall key ensures Summarizes(s', key) {
      RecordSummary(s, tid, c, key);
    }
    forall key, n: nat | n <= |s'.log| ensures SpacedUpTo(s'.log, n, key) {
      RecordSummary(s, tid, c, key);
      assert s'.log[..|s'.log|] == s'.log;
      if n <= |s.log| {
        assert s'.log[..n] == s.log[..n];
        assert SpacedUpTo(s.log, n, key);
      }
    }
    forall x | x in s'.threads && PastCheck(s'.threads[x])
      ensures !Limited(s'.attempts, s'.threads[x].key, s'.now)
    {
      assert s.threads[x].key != me by {
        assert HeldBy(s, s.threads[x].lock, x) && HeldBy(s, s.threads[tid].lock, tid);
      }
    }
  }

  /** Nothing was recorded, and whoever is past the check passed it before or now. */
  ghost predicate Unrecorded(s: State, s': State) {
    && s'.log == s.log && s'.attempts == s.attempts && s'.now >= s.now
    && forall x :: x in s'.threads && PastCheck(s'.threads[x]) ==>
         x in s.threads && s.threads[x].key == s'.threads[x].key
         && (PastCheck(s.threads[x]) || !Limited(s.attempts, s.threads[x].key, s.now))
  }

  /** A step of thread tid that records nothing, and what it says about that thread. */
  ghost predicate Passes(s: State, s': State, tid: Tid)
    requires tid in s.threads
  {
    var t := s.threads[tid];
    && s'.log == s.log && s'.attempts == s.attempts && s'.now == s.now
    && tid in s'.threads && s'.threads == s.threads[tid := s'.threads[tid]] && s'.threads[tid].key == t.key
    && (PastCheck(s'.threads[tid]) ==> PastCheck(t) || !Limited(s.attempts, t.key, s.now))
  }

  lemma VerificationPasses(s: State, tid: Tid, c: Choice)
    requires CanStep(s, tid) && InVerification(s.threads[tid].pc) && !s.threads[tid].pc.Recording?
    ensures Passes(s, Verification(s, tid, c), tid)
  {
    hide Limited;
  }

  lemma WorkPasses(s: State, tid: Tid, c: Choice)
    requires CanStep(s, tid) && !s.threads[tid].pc.Recording?
    requires !TouchesLock(s.threads[tid].pc)
    ensures Passes(s, Work(s, tid, c), tid)
  {
    hide Limited, CurrentHash, Verification;
    if InVerification(s.threads[tid].pc) {
      VerificationPasses(s, tid, c);
    }
  }

  lemma WorkUnrecorded(s: State, tid: Tid, c: Choice)
    requires CanStep(s, tid) && !s.threads[tid].pc.Recording?
    requires !TouchesLock(s.threads[tid].pc)
    ensures Unrecorded(s, Work(s, tid, c))
  {
    hide Limited, Work, PastCheck;
    WorkPasses(s, tid, c);
  }

  lemma OtherStepUnrecorded(s: State, a: Action)
    requires Enabled(s, a)
    requires a.Step? ==> !s.threads[a.tid].pc.Recording?
    ensures Unrecorded(s, Apply(s, a))
  {
    hide Limited, Work, CurrentHash;
    if a.Step? {
      var pc := s.threads[a.tid].pc;
      if !TouchesLock(pc) {
        WorkUnrecorded(s, a.tid, a.choice);
      }
    }
  }

  lemma OtherStepKeeps(s: State, a: Action)
    requires LockoutInv(s) && Enabled(s, a)
    requires a.Step? ==> !s.threads[a.tid].pc.Recording?
    ensures LockoutInv(Apply(s, a))
  {
    OtherStepUnrecorded(s, a);
    hide Apply, Enabled, Streak;
    var s' := Apply(s, a);
    forall key ensures Summarizes(s', key) {
      assert Summarizes(s, key);
    }
    forall x | x in s'.threads && PastCheck(s'.threads[x])
      ensures !Limited(s'.attempts, s'.threads[x].key, s'.now)
    {
      assert !Limited(s.attempts, s.threads[x].key, s.now);
    }
  }

  lemma {:induction false} LockoutInvAlong(s: State, run: seq<Action>)
    requires LocksInv(s) && LockoutInv(s) && CanRun(s, run)
    ensures LockoutInv(Run(s, run))
    decreases |run|
  {
    if run != [] {
      var a := run[0];
      StepKeepsLocks(s, a);
      if a.Step? && s.threads[a.tid].pc.Recording? {
        RecordKeeps(s, a.tid, a.choice);
      } else {
        OtherStepKeeps(s, a);
      }
      LockoutInvAlong(Apply(s, a), run[1..]);
    }
  }

  /** A stretch without a success extends the streak it starts from. */
  lemma {:induction false} StreakExtends(log: seq<Event>, i: nat, j: nat, key: Key)
    requires i <= j <= |log| && NoSuccess(log[i..j], key)
    ensures Streak(log[..j], key) == Streak(log[..i], key) + FailuresIn(log[i..j], key)
    decreases j
  {
    if i < j {
      assert log[i..j][j - 1 - i] == log[j - 1];
      assert log[..j][..j - 1] == log[..j - 1] && log[i..j][..j - 1 - i] == log[i..j - 1];
      assert forall k :: 0 <= k < j - 1 - i ==> log[i..j - 1][k] == log[i..j][k];
      StreakExtends(log, i, j - 1, key);
    }
  }

  lemma {:induction false} SpacedTakes(f: seq<nat>, a: nat, b: nat)
    requires Spaced(f) && a + b < |f|
    ensures f[a] + TotalDelay(b + 1) <= f[a + b]
    decreases b
  {
    if b > 0 {
      SpacedTakes(f, a, b - 1);
      DelayMonotone(b, a + b);
    }
  }

  /** The lockout bound: k failed verifications on one key with no success between
      them span at least the sum of the lockouts after the 5th, 6th, ..., (k-1)-th,
      however many goroutines guess at once. */
  lemma LockoutBound(env: Option<Password>, stored: Option<Password>, run: seq<Action>, key: Key, i: nat, j: nat)
    requires CanRun(Init(env, stored), run)
    requires i <= j <= |Run(Init(env, stored), run).log|
    requires NoSuccess(Run(Init(env, stored), run).log[i..j], key)
    ensures var f := FailuresIn(Run(Init(env, stored), run).log[i..j], key);
      f != [] ==> f[|f| - 1] - f[0] >= TotalDelay(|f|)
  {
    var s0 := Init(env, stored);
    InitLocks(env, stored);
    LockoutInvAlong(s0, run);
    var log := Run(s0, run).log;
    var f := FailuresIn(log[i..j], key);
    StreakExtends(log, i, j, key);
    assert SpacedUpTo(log, j, key);
    if f != [] {
      SpacedTakes(Streak(log[..j], key), |Streak(log[..i], key)|, |f| - 1);
    }
  }
}
