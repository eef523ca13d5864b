/** What a call to the password gate returns: exactly when a key is locked out, and that
    the right password is let in. */
module GateOutcomes {
  import opened Backoff
  import opened Gate
  import opened GateLocks
  import opened GateLockout
  import opened GateSlots
  import opened GateVerdicts
  import opened Options

  /** Five or more failures since the key's last success, and the lockout that the last of
      them started is not over. */
  predicate LockedOut(log: seq<Event>, key: Key, now: nat) {
    var f := Streak(log, key);
    |f| >= 5 && now < f[|f| - 1] + Delay(|f|)
  }

  lemma LimitedIsLockedOut(s: State, key: Key)
    requires LockoutInv(s)
    ensures Limited(s.attempts, key, s.now) <==> LockedOut(s.log, key, s.now)
  {
    assert Summarizes(s, key);
  }

  /** In every reachable state, a goroutine at its check is turned away exactly if the
      recorded verifications lock its key out; otherwise it goes on to verify. */
  lemma CheckIsExact(env: Option<Password>, stored: Option<Password>, run: seq<Action>, tid: Tid, c: Choice)
    requires CanRun(Init(env, stored), run)
    requires var s := Run(Init(env, stored), run); CanStep(s, tid) && s.threads[tid].pc.Checking?
    ensures var s := Run(Init(env, stored), run);
      tid in Apply(s, Step(tid, c)).threads
      && var next := Apply(s, Step(tid, c)).threads[tid].pc;
      && (next == Releasing(RateLimited) <==> LockedOut(s.log, s.threads[tid].key, s.now))
      && (next != Releasing(RateLimited) ==> next == if c.verifyFails then Releasing(VerifyError) else Queueing(s.now))
  {
    InitLocks(env, stored);
    LockoutInvAlong(Init(env, stored), run);
    var s := Run(Init(env, stored), run);
    LimitedIsLockedOut(s, s.threads[tid].key);
    hide Run, CanRun, LockoutInv, Limited, LockedOut, Verification;
  }

  // ------------------------------------------------------ past the check, in any company

  predicate Ends(pc: Pc, o: Outcome) {
    pc == Releasing(o) || pc == Dropping(o) || (pc.Returned? && pc.outcome == o)
  }

  /** Past the check and not turned away for want of a slot: with the password it read
      equal to the guess, on the way to Unlocked, or to storing; otherwise to WrongPassword. */
  predicate OnTrack(t: Thread) {
    || t.pc.Queueing? || t.pc.Verifying?
    || if t.hash == Some(t.guess) then
         || t.pc == Recording(true)
         || (if t.op.TryUnlock? then t.pc.Minting? || Ends(t.pc, Unlocked)
             else t.pc.Storing? || Ends(t.pc, Changed) || Ends(t.pc, StoreError))
       else t.pc == Recording(false) || Ends(t.pc, WrongPassword)
  }

  /** Whenever thread tid steps from the queue in this run, it gets a slot. */
  predicate GetsSlots(s: State, run: seq<Action>, tid: Tid)
    requires CanRun(s, run)
    decreases |run|
  {
    run == []
    || ((run[0].Step? && run[0].tid == tid && s.threads[tid].pc.Queueing? ==> GetsSlot(s, tid, run[0].choice))
        && GetsSlots(Apply(s, run[0]), run[1..], tid))
  }

  predicate GetsSlot(s: State, tid: Tid, c: Choice)
    requires tid in s.threads && s.threads[tid].pc.Queueing?
  {
    s.slots < VERIFY_SLOTS && !(c.timesOut && s.threads[tid].pc.since + VERIFY_QUEUE_WAIT <= s.now)
  }

  /** The same call, with the same hash read. */
  ghost predicate SameRead(s: State, s': State, tid: Tid)
    requires tid in s.threads
  {
    tid in s'.threads && SameCall(s.threads[tid], s'.threads[tid]) && s'.threads[tid].hash == s.threads[tid].hash
  }

  lemma VerificationStaysOnTrack(s: State, tid: Tid, c: Choice)
    requires CanStep(s, tid) && InVerification(s.threads[tid].pc) && OnTrack(s.threads[tid])
    requires s.threads[tid].pc.Queueing? ==> GetsSlot(s, tid, c)
    ensures SameRead(s, Verification(s, tid, c), tid) && OnTrack(Verification(s, tid, c).threads[tid])
  {
    hide AfterSuccess, AfterFailure;
  }

  lemma StepStaysOnTrack(s: State, a: Action, tid: Tid)
    requires Enabled(s, a) && tid in s.threads && OnTrack(s.threads[tid])
    requires a.Step? && a.tid == tid && s.threads[tid].pc.Queueing? ==> GetsSlot(s, tid, a.choice)
    ensures SameRead(s, Apply(s, a), tid) && OnTrack(Apply(s, a).threads[tid])
  {
    hide Verification, Limited;
    if a.Step? && a.tid == tid {
      if InVerification(s.threads[tid].pc) {
        VerificationStaysOnTrack(s, tid, a.choice);
      }
    } else if a.Step? {
      OthersStay(s, a.tid, a.choice, tid);
    }
  }

  lemma OthersStay(s: State, tid: Tid, c: Choice, other: Tid)
    requires CanStep(s, tid) && other in s.threads && other != tid
    ensures other in Advance(s, tid, c).threads && Advance(s, tid, c).threads[other] == s.threads[other]
  {
    AdvanceMoves(s, tid, c);
    hide Advance;
  }

  /** Whoever has passed the check and gets a slot is granted exactly if the guess is the
      hash that was read: whatever else happens, TryUnlock then returns Unlocked and
      ChangePassword comes to store the new password; with another guess both return
      WrongPassword. */
  lemma {:induction false} PastTheCheck(s: State, run: seq<Action>, tid: Tid)
    requires CanRun(s, run) && tid in s.threads && OnTrack(s.threads[tid]) && GetsSlots(s, run, tid)
    ensures SameRead(s, Run(s, run), tid) && OnTrack(Run(s, run).threads[tid])
    decreases |run|
  {
    hide OnTrack, Apply, Enabled, GetsSlot;
    if run != [] {
      StepStaysOnTrack(s, run[0], tid);
      PastTheCheck(Apply(s, run[0]), run[1..], tid);
    }
  }

  // ----------------------------------------------------------------- alone on a key

  /** Nobody else is in the way of thread tid. */
  ghost predicate Alone(s: State, tid: Tid) {
    && LocksInv(s) && SlotsInv(s) && LockoutInv(s) && tid in s.threads
    && (forall x :: x in s.threads && x != tid && s.threads[x].key == s.threads[tid].key ==> !Counted(s.threads[x]))
    && (s.slots < VERIFY_SLOTS || s.threads[tid].pc.Verifying?)
    && var t := s.threads[tid];
    && (t.pc.Queueing? ==> t.pc.since == s.now)
    && (t.pc.Storing? ==> t.op.ChangePassword?)
    && (HasRead(t) ==> t.hash == CurrentHash(s) && t.hash.Some?)
  }

  /** What the call of thread tid will return. */
  function Forecast(s: State, t: Thread, c: Choice): Outcome {
    match t.pc
    case Releasing(o) => o
    case Dropping(o) => o
    case Returned(o, _) => o
    case Minting => Unlocked
    case Storing => if c.storeFails then StoreError else Changed
    case Recording(matched) => Judged(t.op, matched, c)
    case Verifying => Judged(t.op, CurrentHash(s) == Some(t.guess), c)
    case Queueing(_) => Judged(t.op, CurrentHash(s) == Some(t.guess), c)
    case _ =>
      if t.pc.Starting? && t.op.ChangePassword? && s.env.Some? then EnvPinned
      else if CurrentHash(s).None? then NotConfigured
      else if LockedOut(s.log, t.key, s.now) then RateLimited
      else if c.verifyFails then VerifyError
      else Judged(t.op, CurrentHash(s) == Some(t.guess), c)
  }

  function Judged(op: Op, right: bool, c: Choice): Outcome {
    if !right then WrongPassword
    else if op.TryUnlock? then Unlocked
    else if c.storeFails then StoreError
    else Changed
  }

  function Rank(t: Thread): nat {
    match t.pc
    case Starting => 12
    case Entering => 10
    case Waiting => 9
    case Reading => if t.op.TryUnlock? then 11 else 8
    case Checking => 7
    case Queueing(_) => 6
    case Verifying => 5
    case Recording(_) => 4
    case Minting => 3
    case Storing => 3
    case Releasing(_) => 2
    case Dropping(_) => 1
    case Returned(_, _) => 0
  }

  lemma AloneCanStep(s: State, tid: Tid)
    requires Alone(s, tid) && !s.threads[tid].pc.Returned?
    ensures CanStep(s, tid)
  {
    BlockedWaits(s, tid);
    hide LocksInv, SlotsInv, LockoutInv, CanStep;
  }

  /** One step of a goroutine that is alone: nearer to the end, and the same forecast. */
  ghost predicate Nearer(s: State, s': State, tid: Tid, c: Choice)
    requires tid in s.threads
  {
    && tid in s'.threads && s'.threads[tid].op == s.threads[tid].op
    && s'.threads[tid].key == s.threads[tid].key
    && Rank(s'.threads[tid]) < Rank(s.threads[tid])
    && Forecast(s', s'.threads[tid], c) == Forecast(s, s.threads[tid], c)
    && (s'.threads[tid].pc.Queueing? ==> s'.threads[tid].pc.since == s'.now)
    && (s'.threads[tid].pc.Storing? ==> s'.threads[tid].op.ChangePassword?)
    && (HasRead(s'.threads[tid]) ==> s'.threads[tid].hash == CurrentHash(s') && s'.threads[tid].hash.Some?)
    && (s'.slots < VERIFY_SLOTS || s'.threads[tid].pc.Verifying?)
  }

  lemma VerificationIsNearer(s: State, tid: Tid, c: Choice)
    requires Alone(s, tid) && CanStep(s, tid) && InVerification(s.threads[tid].pc)
    ensures Nearer(s, Verification(s, tid, c), tid, c)
  {
    hide LocksInv, LockoutInv, AfterSuccess, AfterFailure, LockedOut;
  }

  lemma CheckingIsNearer(s: State, tid: Tid, c: Choice)
    requires Alone(s, tid) && CanStep(s, tid) && s.threads[tid].pc.Checking?
    ensures Nearer(s, Work(s, tid, c), tid, c)
  {
    LimitedIsLockedOut(s, s.threads[tid].key);
    hide LocksInv, LockoutInv, SlotsInv, LockedOut, Limited, Verification;
  }

  lemma StoringIsNearer(s: State, tid: Tid, c: Choice)
    requires Alone(s, tid) && CanStep(s, tid) && s.threads[tid].pc.Storing?
    ensures Nearer(s, Work(s, tid, c), tid, c)
  {
    hide LocksInv, LockoutInv, SlotsInv, LockedOut, Limited, Verification;
  }

  lemma StartingIsNearer(s: State, tid: Tid, c: Choice)
    requires Alone(s, tid) && CanStep(s, tid) && s.threads[tid].pc.Starting?
    ensures Nearer(s, Work(s, tid, c), tid, c)
  {
    hide LocksInv, LockoutInv, SlotsInv, LockedOut, Limited, Verification;
  }

  lemma ReadingIsNearer(s: State, tid: Tid, c: Choice)
    requires Alone(s, tid) && CanStep(s, tid) && s.threads[tid].pc.Reading?
    ensures Nearer(s, Work(s, tid, c), tid, c)
  {
    hide LocksInv, LockoutInv, SlotsInv, LockedOut, Limited, Verification;
  }

  lemma LockStepIsNearer(s: State, tid: Tid, c: Choice)
    requires Alone(s, tid) && CanStep(s, tid) && TouchesLock(s.threads[tid].pc)
    ensures Nearer(s, Advance(s, tid, c), tid, c)
  {
    hide LocksInv, LockoutInv, SlotsInv, LockedOut, Limited, Verification, Work;
  }

  lemma AloneStep(s: State, tid: Tid, c: Choice)
    requires Alone(s, tid) && !s.threads[tid].pc.Returned?
    ensures CanStep(s, tid)
    ensures Alone(Advance(s, tid, c), tid) && Nearer(s, Advance(s, tid, c), tid, c)
  {
    AloneCanStep(s, tid);
    var s' := Advance(s, tid, c);
    AloneKeeps(s, tid, c);
    var pc := s.threads[tid].pc;
    if TouchesLock(pc) {
      LockStepIsNearer(s, tid, c);
    } else if InVerification(pc) {
      VerificationIsNearer(s, tid, c);
    } else if pc.Checking? {
      CheckingIsNearer(s, tid, c);
    } else if pc.Storing? {
      StoringIsNearer(s, tid, c);
    } else if pc.Starting? {
      StartingIsNearer(s, tid, c);
    } else {
      ReadingIsNearer(s, tid, c);
    }
    hide LocksInv, SlotsInv, LockoutInv, Advance, Forecast, Rank, CanStep, LockedOut;
    forall x | x in s'.threads && x != tid && s'.threads[x].key == s'.threads[tid].key ensures !Counted(s'.threads[x]) {
      assert s'.threads[x] == s.threads[x];
    }
  }

  lemma AloneKeeps(s: State, tid: Tid, c: Choice)
    requires LocksInv(s) && SlotsInv(s) && LockoutInv(s) && CanStep(s, tid)
    ensures var s' := Advance(s, tid, c);
      && LocksInv(s') && SlotsInv(s') && LockoutInv(s')
      && tid in s'.threads && s'.threads == s.threads[tid := s'.threads[tid]]
  {
    var a := Step(tid, c);
    AdvanceMoves(s, tid, c);
    StepKeepsLocks(s, a);
    StepKeepsSlots(s, a);
    if s.threads[tid].pc.Recording? {
      RecordKeeps(s, tid, c);
    } else {
      OtherStepKeeps(s, a);
    }
    hide LocksInv, SlotsInv, LockoutInv, Work;
  }

  /** Thread tid taking steps, with the same outside answers, until its call returns. */
  function Finish(s: State, tid: Tid, c: Choice): State
    requires Alone(s, tid)
    decreases Rank(s.threads[tid])
  {
    if s.threads[tid].pc.Returned? then s
    else
      AloneStep(s, tid, c);
      Finish(Advance(s, tid, c), tid, c)
  }

  lemma {:induction false} FinishesAsForecast(s: State, tid: Tid, c: Choice)
    requires Alone(s, tid)
    ensures var e := Finish(s, tid, c);
      tid in e.threads && e.threads[tid].pc.Returned?
      && e.threads[tid].pc.outcome == Forecast(s, s.threads[tid], c)
    decreases Rank(s.threads[tid])
  {
    hide Advance, Rank, CanStep;
    if !s.threads[tid].pc.Returned? {
      AloneStep(s, tid, c);
      hide Alone, Forecast;
      FinishesAsForecast(Advance(s, tid, c), tid, c);
    }
  }

  /** A call on a key nobody else is using, while a slot is free, returns in every
      reachable state exactly what the source's checks say, in their order. */
  lemma CallAloneReturns(env: Option<Password>, stored: Option<Password>, run: seq<Action>,
                         tid: Tid, op: Op, key: Key, guess: Password, c: Choice)
    requires CanRun(Init(env, stored), run)
    requires var s := Run(Init(env, stored), run);
      tid !in s.threads && s.slots < VERIFY_SLOTS && key !in s.table
    ensures var s := Run(Init(env, stored), run);
      var s1 := Apply(s, Call(tid, op, key, guess));
      Alone(s1, tid)
      && var e := Finish(s1, tid, c);
      && tid in e.threads && e.threads[tid].pc.Returned?
      && e.threads[tid].pc.outcome ==
         if op.ChangePassword? && s.env.Some? then EnvPinned
         else if CurrentHash(s).None? then NotConfigured
         else if LockedOut(s.log, key, s.now) then RateLimited
         else if c.verifyFails then VerifyError
         else if CurrentHash(s) != Some(guess) then WrongPassword
         else if op.TryUnlock? then Unlocked
         else if c.storeFails then StoreError
         else Changed
  {
    InitLocks(env, stored);
    LocksInvAlong(Init(env, stored), run);
    AtMostTwoVerify(env, stored, run);
    LockoutInvAlong(Init(env, stored), run);
    var s := Run(Init(env, stored), run);
    var s1 := Apply(s, Call(tid, op, key, guess));
    hide Run, CanRun;
    ArrivesAlone(s, tid, op, key, guess);
    FinishesAsForecast(s1, tid, c);
    hide Alone, LocksInv, SlotsInv, LockoutInv, LockedOut;
  }

  lemma ArrivesAlone(s: State, tid: Tid, op: Op, key: Key, guess: Password)
    requires LocksInv(s) && SlotsInv(s) && LockoutInv(s)
    requires tid !in s.threads && s.slots < VERIFY_SLOTS && key !in s.table
    ensures Alone(Apply(s, Call(tid, op, key, guess)), tid)
  {
    var a := Call(tid, op, key, guess);
    var s1 := Apply(s, a);
    StepKeepsLocks(s, a);
    StepKeepsSlots(s, a);
    OtherStepKeeps(s, a);
    hide LockoutInv, SlotsInv;
    forall x | x in s1.threads && x != tid && s1.threads[x].key == key ensures !Counted(s1.threads[x]) {
      assert s1.threads[x] == s.threads[x];
    }
  }
}
