/** What a verdict of the password gate, and a minted token, prove in every interleaving. */
module GateVerdicts {
  import opened Backoff
  import opened Gate
  import opened Options

  /** How many configured values there had been when the call returned, or now. */
  function Until(s: State, t: Thread): nat {
    if t.pc.Returned? then t.pc.ended else |s.hashes|
  }

  /** hashes[i] was the effective password at some moment from the began-th value on,
      while there were no more than `until`. */
  ghost predicate Effective(s: State, began: nat, until: nat, v: Option<Password>) {
    exists i :: began <= i + 1 && 0 <= i < until <= |s.hashes| && s.hashes[i] == v
  }

  /** A value was the effective password at some moment during the call. */
  ghost predicate SeenDuring(s: State, t: Thread, v: Option<Password>) {
    Effective(s, t.began, Until(s, t), v)
  }

  predicate Granted(o: Outcome) {
    o.Unlocked? || o.Changed? || o.StoreError?
  }

  predicate Verified(t: Thread) {
    match t.pc
    case Recording(matched) => matched
    case Minting => true
    case Storing => true
    case Releasing(o) => Granted(o)
    case Dropping(o) => Granted(o)
    case Returned(o, _) => Granted(o)
    case _ => false
  }

  predicate Denied(t: Thread) {
    match t.pc
    case Recording(matched) => !matched
    case Releasing(o) => o.WrongPassword?
    case Dropping(o) => o.WrongPassword?
    case Returned(o, _) => o.WrongPassword?
    case _ => false
  }

  /** On its way to compare the guess with a hash it has read. */
  predicate HasRead(t: Thread) {
    t.pc.Checking? || t.pc.Queueing? || t.pc.Verifying? || t.pc.Recording? || (t.op.TryUnlock? && (t.pc.Entering? || t.pc.Waiting?))
  }

  ghost predicate Honest(s: State, t: Thread) {
    && t.began <= Until(s, t) <= |s.hashes|
    && (t.hash.Some? ==> SeenDuring(s, t, t.hash))
    && (HasRead(t) ==> t.hash.Some?)
    && (t.pc.Minting? ==> t.op.TryUnlock?)
    && (Verified(t) ==> t.hash == Some(t.guess))
    && (Denied(t) ==> t.hash.Some? && t.hash != Some(t.guess))
  }

  ghost predicate HashInv(s: State) {
    && |s.hashes| > 0
    && s.hashes[|s.hashes| - 1] == CurrentHash(s)
    && forall tid :: tid in s.threads ==> Honest(s, s.threads[tid])
  }

  lemma HonestLater(s: State, s': State, t: Thread)
    requires Honest(s, t) && s.hashes <= s'.hashes
    ensures Honest(s', t)
  {
  }

  /** A step of thread tid: the effective password changes only by a new value at the end
      of the history, and the thread is honest afterwards. */
  ghost predicate StaysHonest(s: State, s': State, tid: Tid) {
    && s.hashes <= s'.hashes && |s'.hashes| > 0 && s'.hashes[|s'.hashes| - 1] == CurrentHash(s')
    && tid in s'.threads && s'.threads == s.threads[tid := s'.threads[tid]]
    && Honest(s', s'.threads[tid])
  }

  lemma VerificationStaysHonest(s: State, tid: Tid, c: Choice)
    requires HashInv(s) && CanStep(s, tid) && InVerification(s.threads[tid].pc)
    ensures StaysHonest(s, Verification(s, tid, c), tid)
  {
    hide SeenDuring, AfterSuccess, AfterFailure;
    var s', t := Verification(s, tid, c), s.threads[tid];
    assert Honest(s, t);
    assert SeenDuring(s, t, t.hash) ==> SeenDuring(s', s'.threads[tid], t.hash) by { SeenAfter(s, s', t, s'.threads[tid], t.hash); }
  }

  lemma SeenAfter(s: State, s': State, t: Thread, t': Thread, v: Option<Password>)
    requires !t.pc.Returned? && s.hashes <= s'.hashes && t'.began == t.began
    requires t'.pc.Returned? ==> t'.pc.ended == |s'.hashes|
    ensures SeenDuring(s, t, v) ==> SeenDuring(s', t', v)
  {
  }

  lemma ReadingStaysHonest(s: State, tid: Tid, c: Choice)
    requires HashInv(s) && CanStep(s, tid) && s.threads[tid].pc.Reading?
    ensures StaysHonest(s, Work(s, tid, c), tid)
  {
    var s' := Work(s, tid, c);
    var t' := s'.threads[tid];
    assert Honest(s, s.threads[tid]);
    assert s'.hashes[|s.hashes| - 1] == t'.hash;
    assert SeenDuring(s', t', t'.hash);
    hide SeenDuring, CurrentHash;
  }

  lemma StoringStaysHonest(s: State, tid: Tid, c: Choice)
    requires HashInv(s) && CanStep(s, tid) && s.threads[tid].pc.Storing?
    ensures StaysHonest(s, Work(s, tid, c), tid)
  {
    hide SeenDuring, Limited, Verification;
    var s', t := Work(s, tid, c), s.threads[tid];
    assert Honest(s, t);
    SeenAfter(s, s', t, s'.threads[tid], t.hash);
  }

  lemma MovedStaysHonest(s: State, tid: Tid, pc: Pc)
    requires HashInv(s) && tid in s.threads && !s.threads[tid].pc.Returned?
    requires var t' := s.threads[tid].(pc := pc);
      && !Verified(t') && !Denied(t') && !pc.Minting? && (pc.Returned? ==> pc.ended == |s.hashes|)
      && (HasRead(t') ==> s.threads[tid].hash.Some?)
    ensures StaysHonest(s, SetPc(s, tid, pc), tid)
  {
    hide SeenDuring, Verified, Denied, HasRead;
    var s', t := SetPc(s, tid, pc), s.threads[tid];
    assert Honest(s, t);
    SeenAfter(s, s', t, s'.threads[tid], t.hash);
  }

  lemma WorkStaysHonest(s: State, tid: Tid, c: Choice)
    requires HashInv(s) && CanStep(s, tid)
    requires s.threads[tid].pc.Starting? || s.threads[tid].pc.Checking?
    ensures StaysHonest(s, Work(s, tid, c), tid)
  {
    assert s.threads[tid].pc.Checking? ==> s.threads[tid].hash.Some? by {
      assert Honest(s, s.threads[tid]);
    }
    hide SetPc, Limited, Verification, Configure, HashInv, StaysHonest;
    var t := s.threads[tid];
    MovedStaysHonest(s, tid,
      if t.pc.Checking? then
        if Limited(s.attempts, t.key, s.now) then Releasing(RateLimited)
        else if c.verifyFails then Releasing(VerifyError)
        else Queueing(s.now)
      else if t.op.TryUnlock? then Reading
      else if s.env.Some? then Returned(EnvPinned, |s.hashes|)
      else Entering);
  }

  lemma LockStepStaysHonest(s: State, tid: Tid, c: Choice)
    requires HashInv(s) && CanStep(s, tid) && TouchesLock(s.threads[tid].pc)
    ensures StaysHonest(s, Advance(s, tid, c), tid)
  {
    hide SeenDuring, Work;
    var s', t := Advance(s, tid, c), s.threads[tid];
    assert Honest(s, t);
    SeenAfter(s, s', t, s'.threads[tid], t.hash);
  }

  lemma AdvanceStaysHonest(s: State, tid: Tid, c: Choice)
    requires HashInv(s) && CanStep(s, tid)
    ensures StaysHonest(s, Advance(s, tid, c), tid)
  {
    hide StaysHonest, HashInv, Verification, Enter, Acquire, Release, Drop;
    var pc := s.threads[tid].pc;
    if TouchesLock(pc) {
      LockStepStaysHonest(s, tid, c);
    } else if InVerification(pc) {
      VerificationStaysHonest(s, tid, c);
    } else if pc.Reading? {
      ReadingStaysHonest(s, tid, c);
    } else if pc.Storing? {
      StoringStaysHonest(s, tid, c);
    } else {
      WorkStaysHonest(s, tid, c);
    }
  }

  lemma OneStaysHonest(s: State, s': State, tid: Tid)
    requires HashInv(s) && StaysHonest(s, s', tid)
    ensures HashInv(s')
  {
    hide Honest;
    forall x | x in s'.threads ensures Honest(s', s'.threads[x]) {
      if x in s.threads {
        HonestLater(s, s', s.threads[x]);
      }
    }
  }

  lemma StepKeepsHashes(s: State, a: Action)
    requires HashInv(s) && Enabled(s, a)
    ensures HashInv(Apply(s, a))
  {
    var s' := Apply(s, a);
    match a
    case Step(tid, c) =>
      hide Advance, HashInv, StaysHonest;
      AdvanceStaysHonest(s, tid, c);
      OneStaysHonest(s, s', tid);
    case Call(tid, _, _, _) =>
      OneStaysHonest(s, s', tid);
    case _ =>
      forall x | x in s'.threads ensures Honest(s', s'.threads[x]) {
        HonestLater(s, s', s.threads[x]);
      }
  }

  lemma {:induction false} HashInvAlong(s: State, run: seq<Action>)
    requires HashInv(s) && CanRun(s, run)
    ensures HashInv(Run(s, run))
    decreases |run|
  {
    if run != [] {
      StepKeepsHashes(s, run[0]);
      HashInvAlong(Apply(s, run[0]), run[1..]);
    }
  }

  /** A call that came to a verdict compared the guess with a password that was the
      effective one at some moment during that call: it was granted, or got past the
      current-password check of a change, exactly if the two were the same. */
  lemma VerdictsAreHonest(env: Option<Password>, stored: Option<Password>, run: seq<Action>, tid: Tid)
    requires CanRun(Init(env, stored), run)
    requires var s := Run(Init(env, stored), run);
      tid in s.threads && s.threads[tid].pc.Returned?
      && (Granted(s.threads[tid].pc.outcome) || s.threads[tid].pc.outcome.WrongPassword?)
    ensures var s := Run(Init(env, stored), run);
      var t := s.threads[tid];
      exists v :: SeenDuring(s, t, Some(v)) && (Granted(t.pc.outcome) <==> v == t.guess)
  {
    HashInvAlong(Init(env, stored), run);
    var s := Run(Init(env, stored), run);
    hide Run, CanRun, SeenDuring;
    var t := s.threads[tid];
    assert Honest(s, t);
    assert SeenDuring(s, t, Some(t.hash.value));
  }

  // --------------------------------------------------------------- minted tokens

  /** The token was minted for a TryUnlock whose guess was the effective password at some
      moment between the beginning of the call and the minting. */
  ghost predicate Genuine(s: State, l: Login) {
    && l.tid in s.threads && s.threads[l.tid].op.TryUnlock? && l.at <= s.now
    && Effective(s, s.threads[l.tid].began, l.configured, Some(s.threads[l.tid].guess))
  }

  ghost predicate LoginsInv(s: State) {
    forall k :: 0 <= k < |s.logins| ==> Genuine(s, s.logins[k])
  }

  lemma GenuineLater(s: State, s': State, l: Login)
    requires Genuine(s, l) && s.hashes <= s'.hashes && s.now <= s'.now && l.tid in s'.threads
    requires SameCall(s.threads[l.tid], s'.threads[l.tid])
    ensures Genuine(s', l)
  {
  }

  predicate SameCall(t: Thread, t': Thread) {
    t'.op == t.op && t'.began == t.began && t'.guess == t.guess
  }

  /** No step forgets what a call was asked, or rewrites history. */
  ghost predicate Continues(s: State, s': State) {
    && s.hashes <= s'.hashes && s.now <= s'.now
    && forall x :: x in s.threads ==> x in s'.threads && SameCall(s.threads[x], s'.threads[x])
  }

  ghost predicate Mints(s: State, s': State, tid: Tid)
    requires tid in s.threads
  {
    s'.logins == s.logins
    || (s.threads[tid].pc.Minting? && s'.logins == s.logins + [Login(tid, s.now, |s.hashes|)])
  }

  lemma VerificationContinues(s: State, tid: Tid, c: Choice)
    requires CanStep(s, tid) && InVerification(s.threads[tid].pc)
    ensures Continues(s, Verification(s, tid, c)) && Mints(s, Verification(s, tid, c), tid)
  {
    hide AfterSuccess, AfterFailure;
  }

  lemma WorkContinues(s: State, tid: Tid, c: Choice)
    requires CanStep(s, tid) && !TouchesLock(s.threads[tid].pc)
    ensures Continues(s, Work(s, tid, c)) && Mints(s, Work(s, tid, c), tid)
  {
    hide Limited, CurrentHash, Verification;
    if InVerification(s.threads[tid].pc) {
      VerificationContinues(s, tid, c);
    }
  }

  lemma StepContinues(s: State, a: Action)
    requires Enabled(s, a)
    ensures Continues(s, Apply(s, a))
    ensures Apply(s, a).logins == s.logins || (a.Step? && Mints(s, Apply(s, a), a.tid))
  {
    hide Work, CurrentHash;
    if a.Step? && !TouchesLock(s.threads[a.tid].pc) {
      WorkContinues(s, a.tid, a.choice);
    }
  }

  lemma StepKeepsLogins(s: State, a: Action)
    requires HashInv(s) && LoginsInv(s) && Enabled(s, a)
    ensures LoginsInv(Apply(s, a))
  {
    StepContinues(s, a);
    hide Apply, Enabled, Effective;
    var s' := Apply(s, a);
    forall k | 0 <= k < |s'.logins| ensures Genuine(s', s'.logins[k]) {
      if k < |s.logins| {
        GenuineLater(s, s', s.logins[k]);
      } else {
        assert Honest(s, s.threads[a.tid]);
        GenuineLater(s, s', s'.logins[k]);
      }
    }
  }

  lemma {:induction false} LoginsInvAlong(s: State, run: seq<Action>)
    requires HashInv(s) && LoginsInv(s) && CanRun(s, run)
    ensures LoginsInv(Run(s, run))
    decreases |run|
  {
    hide HashInv, LoginsInv, Apply, Enabled;
    if run != [] {
      StepKeepsHashes(s, run[0]);
      StepKeepsLogins(s, run[0]);
      LoginsInvAlong(Apply(s, run[0]), run[1..]);
    }
  }

  lemma InitIsHonest(env: Option<Password>, stored: Option<Password>)
    ensures HashInv(Init(env, stored)) && LoginsInv(Init(env, stored))
  {
  }
}
