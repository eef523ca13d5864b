/** The verification slots all goroutines share, and who can be made to wait for whom. */
module GateSlots {
  import opened Backoff
  import opened Gate
  import opened GateLocks
  import opened Options

  /** The goroutines inside argon2, each holding a slot. */
  function Verifiers(s: State): set<Tid> {
    set tid | tid in s.threads && s.threads[tid].pc.Verifying?
  }

  ghost predicate SlotsInv(s: State) {
    && s.slots == |Verifiers(s)| <= VERIFY_SLOTS
    && forall tid :: tid in s.threads && s.threads[tid].pc.Queueing? ==> s.threads[tid].pc.since <= s.now
  }

  /** One thread moved, and the count of slots with it. */
  ghost predicate SlotsMove(s: State, s': State, tid: Tid) {
    && tid in s'.threads && s'.threads == s.threads[tid := s'.threads[tid]]
    && s'.now == s.now && (s'.threads[tid].pc.Queueing? ==> s'.threads[tid].pc.since <= s.now)
    && var was, now := tid in s.threads && s.threads[tid].pc.Verifying?, s'.threads[tid].pc.Verifying?;
    && (was && !now ==> s.slots > 0)
    && s'.slots == s.slots + (if now then 1 else 0) - (if was then 1 else 0)
    && (now && !was ==> s.slots < VERIFY_SLOTS)
  }

  lemma MoveKeepsSlots(s: State, s': State, tid: Tid)
    requires SlotsInv(s) && SlotsMove(s, s', tid)
    ensures SlotsInv(s')
  {
    var was, now := tid in s.threads && s.threads[tid].pc.Verifying?, s'.threads[tid].pc.Verifying?;
    assert tid in Verifiers(s) <==> was;
    if now {
      assert Verifiers(s') == Verifiers(s) + {tid};
    } else {
      assert Verifiers(s') == Verifiers(s) - {tid};
    }
  }

  lemma VerificationMoves(s: State, tid: Tid, c: Choice)
    requires CanStep(s, tid) && InVerification(s.threads[tid].pc)
    ensures SlotsMove(s, Verification(s, tid, c), tid)
  {
    hide AfterSuccess, AfterFailure;
  }

  lemma AdvanceMoves(s: State, tid: Tid, c: Choice)
    requires CanStep(s, tid)
    ensures SlotsMove(s, Advance(s, tid, c), tid)
  {
    hide Verification, Limited, CurrentHash;
    if InVerification(s.threads[tid].pc) {
      VerificationMoves(s, tid, c);
    }
  }

  lemma StepKeepsSlots(s: State, a: Action)
    requires SlotsInv(s) && Enabled(s, a)
    ensures SlotsInv(Apply(s, a))
  {
    hide Advance;
    match a
    case Step(tid, c) =>
      AdvanceMoves(s, tid, c);
      MoveKeepsSlots(s, Apply(s, a), tid);
    case Call(tid, _, _, _) => MoveKeepsSlots(s, Apply(s, a), tid);
    case _ => assert Verifiers(Apply(s, a)) == Verifiers(s);
  }

  lemma {:induction false} SlotsInvAlong(s: State, run: seq<Action>)
    requires SlotsInv(s) && CanRun(s, run)
    ensures SlotsInv(Run(s, run))
    decreases |run|
  {
    hide SlotsInv, Apply, Enabled;
    if run != [] {
      StepKeepsSlots(s, run[0]);
      SlotsInvAlong(Apply(s, run[0]), run[1..]);
    }
  }

  /** In every interleaving at most two goroutines verify at once, and the channel counts
      them. */
  lemma AtMostTwoVerify(env: Option<Password>, stored: Option<Password>, run: seq<Action>)
    requires CanRun(Init(env, stored), run)
    ensures SlotsInv(Run(Init(env, stored), run)) && |Verifiers(Run(Init(env, stored), run))| <= 2
  {
    assert Verifiers(Init(env, stored)) == {};
    SlotsInvAlong(Init(env, stored), run);
  }

  /** A goroutine that waits for a slot: fewer than three seconds so far, while both slots
      are taken, one by a goroutine that can move. */
  ghost predicate WaitsForSlot(s: State, tid: Tid)
    requires tid in s.threads
  {
    && s.threads[tid].pc.Queueing? && s.now < s.threads[tid].pc.since + VERIFY_QUEUE_WAIT
    && s.slots == VERIFY_SLOTS
    && exists other :: other in s.threads && s.threads[other].pc.Verifying? && CanStep(s, other)
  }

  /** A goroutine that waits for its key's mutex, held by another one on the same key that
      can move, or waits for a slot itself. */
  ghost predicate WaitsForKey(s: State, tid: Tid)
    requires tid in s.threads
  {
    && s.threads[tid].pc.Waiting?
    && exists other :: other in s.threads && other != tid && s.threads[other].key == s.threads[tid].key
                       && Critical(s.threads[other]) && (CanStep(s, other) || WaitsForSlot(s, other))
  }

  lemma QueuedWaitsForSlot(s: State, tid: Tid)
    requires LocksInv(s) && SlotsInv(s) && tid in s.threads
    requires s.threads[tid].pc.Queueing? && !CanStep(s, tid)
    ensures WaitsForSlot(s, tid)
  {
    assert s.threads[tid].key in s.table && s.threads[tid].lock in s.locks;
    assert s.slots == VERIFY_SLOTS && |Verifiers(s)| > 0;
    var other :| other in Verifiers(s);
    assert s.threads[other].key in s.table && s.table[s.threads[other].key] == s.threads[other].lock;
    assert CanStep(s, other);
  }

  lemma WaitingWaitsForKey(s: State, tid: Tid)
    requires LocksInv(s) && SlotsInv(s) && tid in s.threads
    requires s.threads[tid].pc.Waiting? && !CanStep(s, tid)
    ensures WaitsForKey(s, tid)
  {
    var t := s.threads[tid];
    assert t.key in s.table && s.table[t.key] == t.lock;
    var other := s.locks[t.lock].holder.value;
    assert HeldBy(s, s.table[t.key], other);
    assert Critical(s.threads[other]) && s.threads[other].key == t.key;
    if !CanStep(s, other) {
      CriticalCanMove(s, other);
      QueuedWaitsForSlot(s, other);
    }
  }

  lemma CriticalCanMove(s: State, tid: Tid)
    requires LocksInv(s) && SlotsInv(s) && tid in s.threads && Critical(s.threads[tid]) && !CanStep(s, tid)
    ensures s.threads[tid].pc.Queueing?
  {
    assert s.threads[tid].key in s.table && s.table[s.threads[tid].key] == s.threads[tid].lock;
    if s.threads[tid].pc.Verifying? {
      assert tid in Verifiers(s);
    }
  }

  /** What can hold a goroutine up, in every interleaving: nothing but its own key's mutex
      and the two slots, and the slots for less than three seconds. */
  lemma OnlyKeyAndSlotsDelay(env: Option<Password>, stored: Option<Password>, run: seq<Action>, tid: Tid)
    requires CanRun(Init(env, stored), run)
    requires tid in Run(Init(env, stored), run).threads
    ensures var s := Run(Init(env, stored), run);
      CanStep(s, tid) || s.threads[tid].pc.Returned? || WaitsForKey(s, tid) || WaitsForSlot(s, tid)
  {
    InitLocks(env, stored);
    LocksInvAlong(Init(env, stored), run);
    AtMostTwoVerify(env, stored, run);
    BlockedWaits(Run(Init(env, stored), run), tid);
  }

  lemma BlockedWaits(s: State, tid: Tid)
    requires LocksInv(s) && SlotsInv(s) && tid in s.threads
    ensures CanStep(s, tid) || s.threads[tid].pc.Returned? || WaitsForKey(s, tid) || WaitsForSlot(s, tid)
  {
    hide WaitsForKey, WaitsForSlot, SlotsInv;
    if !CanStep(s, tid) && !s.threads[tid].pc.Returned? {
      if s.threads[tid].pc.Waiting? {
        WaitingWaitsForKey(s, tid);
      } else {
        if Critical(s.threads[tid]) {
          CriticalCanMove(s, tid);
          QueuedWaitsForSlot(s, tid);
        } else {
          FreeCanMove(s, tid);
        }
      }
    }
  }

  lemma FreeCanMove(s: State, tid: Tid)
    requires LocksInv(s) && tid in s.threads && !Critical(s.threads[tid])
    requires !s.threads[tid].pc.Waiting? && !s.threads[tid].pc.Returned?
    ensures CanStep(s, tid)
  {
    assert Counted(s.threads[tid]) ==> s.threads[tid].key in s.table && s.table[s.threads[tid].key] == s.threads[tid].lock;
  }

  /** There is no deadlock: while a call has not returned, some goroutine can move. */
  lemma NoDeadlock(env: Option<Password>, stored: Option<Password>, run: seq<Action>, tid: Tid)
    requires CanRun(Init(env, stored), run)
    requires tid in Run(Init(env, stored), run).threads && !Run(Init(env, stored), run).threads[tid].pc.Returned?
    ensures exists other :: other in Run(Init(env, stored), run).threads && CanStep(Run(Init(env, stored), run), other)
  {
    OnlyKeyAndSlotsDelay(env, stored, run, tid);
    hide Run, CanRun, CanStep;
  }

  /** Other keys can hold a call up only in the queue, and there for three seconds at
      most: after that it moves on, with a slot or without. */
  lemma QueueEnds(env: Option<Password>, stored: Option<Password>, run: seq<Action>, tid: Tid, d: nat)
    requires CanRun(Init(env, stored), run)
    requires tid in Run(Init(env, stored), run).threads && Run(Init(env, stored), run).threads[tid].pc.Queueing?
    requires d >= 3_000_000_000
    ensures CanStep(Apply(Run(Init(env, stored), run), Tick(d)), tid)
  {
    InitLocks(env, stored);
    LocksInvAlong(Init(env, stored), run);
    AtMostTwoVerify(env, stored, run);
    var s := Run(Init(env, stored), run);
    hide Run, CanRun, RefsCountUsers, HolderIsCritical;
    assert s.threads[tid].key in s.table && s.table[s.threads[tid].key] == s.threads[tid].lock;
  }
}
