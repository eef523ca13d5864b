/** Goroutines inside TryUnlock and ChangePassword (backend/internal/authgate/gate.go)
    as threads with program counters. Every critical section of keyLocksMu and of
    attemptsMu is one step, as is taking and releasing a per-key mutex or one of the
    process-wide verification slots (backend/internal/authgate/password.go), so a run is
    any interleaving of those steps. A password hash is represented by the password
    it was made from. */
module Gate {
  import opened Backoff
  import opened Options

  type Tid = nat
  type LockId = nat
  type Password = string

  datatype Op = TryUnlock | ChangePassword(next: Password)

  datatype Outcome = NotConfigured | EnvPinned | RateLimited | VerifyError | Busy | WrongPassword | Unlocked | Changed | StoreError

  /** maxConcurrentVerifies and verifyQueueWait. */
  const VERIFY_SLOTS: nat := 2
  const VERIFY_QUEUE_WAIT: nat := 3 * SECOND

  /** What a goroutine does next: Queueing waits for a verification slot, Verifying holds
      one. Releasing carries what the call will return; Returned also tells how many
      configured values there had been by then. */
  datatype Pc =
    | Starting
    | Reading
    | Entering
    | Waiting
    | Checking
    | Queueing(since: nat)
    | Verifying
    | Recording(matched: bool)
    | Minting
    | Storing
    | Releasing(pending: Outcome)
    | Dropping(pending: Outcome)
    | Returned(outcome: Outcome, ended: nat)

  /** `began` is the number of configured values there had been when the call began. */
  datatype Thread = Thread(op: Op, key: Key, guess: Password, began: nat, pc: Pc, lock: LockId, hash: Option<Password>)

  /** A keyLock object: its reference count and who holds its mutex. */
  datatype KeyLock = KeyLock(refs: int, holder: Option<Tid>)

  /** A token minted by TryUnlock: for whom, when, and how many configured values there
      had been. */
  datatype Login = Login(tid: Tid, at: nat, configured: nat)

  datatype Event = Failed(key: Key, at: nat) | Succeeded(key: Key, at: nat)

  /** `slots` is the number of values in the channel verifySlots. `hashes` lists every
      effective password there has been, the current one last, `log` every recorded
      verification result and `logins` every minted token: these three are history only. */
  datatype State = State(
    env: Option<Password>,
    stored: Option<Password>,
    now: nat,
    attempts: Attempts,
    table: map<Key, LockId>,
    locks: map<LockId, KeyLock>,
    nextLock: LockId,
    threads: map<Tid, Thread>,
    slots: nat,
    log: seq<Event>,
    logins: seq<Login>,
    hashes: seq<Option<Password>>)

  /** Outcomes the model does not decide: whether the hash is malformed, whether select
      prefers an expired timer to a free slot, and whether hashing and writing succeed. */
  datatype Choice = Choice(verifyFails: bool, timesOut: bool, storeFails: bool)

  datatype Action =
    | Tick(d: nat)
    | Call(tid: Tid, op: Op, key: Key, guess: Password)
    | Step(tid: Tid, choice: Choice)
    | SetStored(value: Option<Password>)

  function CurrentHash(s: State): Option<Password> {
    if s.env.Some? then s.env else s.stored
  }

  function Init(env: Option<Password>, stored: Option<Password>): State {
    State(env, stored, 0, map[], map[], map[], 0, map[], 0, [], [], [if env.Some? then env else stored])
  }

  /** Between lockKey's increment of refs and the decrement in its unlock. */
  predicate Counted(t: Thread) {
    match t.pc
    case Reading => t.op.ChangePassword?
    case Waiting => true
    case Checking => true
    case Queueing(_) => true
    case Verifying => true
    case Recording(_) => true
    case Minting => true
    case Storing => true
    case Releasing(_) => true
    case Dropping(_) => true
    case _ => false
  }

  /** Holding the key's mutex. */
  predicate Critical(t: Thread) {
    Counted(t) && !t.pc.Waiting? && !t.pc.Dropping?
  }

  predicate TouchesLock(pc: Pc) {
    pc.Entering? || pc.Waiting? || pc.Releasing? || pc.Dropping?
  }

  predicate CanStep(s: State, tid: Tid) {
    && tid in s.threads
    && var t := s.threads[tid];
    && !t.pc.Returned?
    && (Counted(t) ==> t.key in s.table && t.lock in s.locks)
    && (t.pc.Waiting? ==> s.locks[t.lock].holder.None?)
    && (t.pc.Queueing? ==> s.slots < VERIFY_SLOTS || t.pc.since + VERIFY_QUEUE_WAIT <= s.now)
    && (t.pc.Verifying? ==> s.slots > 0)
    && (t.pc.Entering? && t.key in s.table ==> s.table[t.key] in s.locks)
  }

  predicate Enabled(s: State, a: Action) {
    match a
    case Tick(_) => true
    case Call(tid, _, _, _) => tid !in s.threads
    case Step(tid, _) => CanStep(s, tid)
    case SetStored(_) => true
  }

  function SetPc(s: State, tid: Tid, pc: Pc): State
    requires tid in s.threads
  {
    s.(threads := s.threads[tid := s.threads[tid].(pc := pc)])
  }

  /** lockKey up to the release of keyLocksMu. */
  function Enter(s: State, tid: Tid): State
    requires CanStep(s, tid) && s.threads[tid].pc.Entering?
  {
    var t := s.threads[tid];
    if t.key in s.table then
      var l := s.table[t.key];
      s.(locks := s.locks[l := s.locks[l].(refs := s.locks[l].refs + 1)],
         threads := s.threads[tid := t.(pc := Waiting, lock := l)])
    else
      var l := s.nextLock;
      s.(table := s.table[t.key := l], locks := s.locks[l := KeyLock(1, None)], nextLock := l + 1,
         threads := s.threads[tid := t.(pc := Waiting, lock := l)])
  }

  /** l.mu.Lock(), possible only while nobody holds it. */
  function Acquire(s: State, tid: Tid): State
    requires CanStep(s, tid) && s.threads[tid].pc.Waiting?
  {
    var t := s.threads[tid];
    s.(locks := s.locks[t.lock := s.locks[t.lock].(holder := Some(tid))],
       threads := s.threads[tid := t.(pc := if t.op.TryUnlock? then Checking else Reading)])
  }

  /** l.mu.Unlock() in the deferred unlock. */
  function Release(s: State, tid: Tid): State
    requires CanStep(s, tid) && s.threads[tid].pc.Releasing?
  {
    var t := s.threads[tid];
    s.(locks := s.locks[t.lock := s.locks[t.lock].(holder := None)],
       threads := s.threads[tid := t.(pc := Dropping(t.pc.pending))])
  }

  /** The second keyLocksMu section: drop the reference, and the entry with the last one. */
  function Drop(s: State, tid: Tid): State
    requires CanStep(s, tid) && s.threads[tid].pc.Dropping?
  {
    var t := s.threads[tid];
    var refs := s.locks[t.lock].refs - 1;
    s.(locks := s.locks[t.lock := s.locks[t.lock].(refs := refs)],
       table := if refs == 0 then s.table - {t.key} else s.table,
       threads := s.threads[tid := t.(pc := Returned(t.pc.pending, |s.hashes|))])
  }

  predicate InVerification(pc: Pc) {
    pc.Queueing? || pc.Verifying? || pc.Recording? || pc.Minting?
  }

  /** VerifyPassword behind its parsing, and what follows from its answer. */
  function Verification(s: State, tid: Tid, c: Choice): State
    requires CanStep(s, tid) && InVerification(s.threads[tid].pc)
  {
    var t := s.threads[tid];
    match t.pc
    case Queueing(since) =>
      if s.slots >= VERIFY_SLOTS || (c.timesOut && since + VERIFY_QUEUE_WAIT <= s.now) then SetPc(s, tid, Releasing(Busy))
      else SetPc(s, tid, Verifying).(slots := s.slots + 1)
    case Verifying =>
      SetPc(s, tid, Recording(t.hash == Some(t.guess))).(slots := s.slots - 1)
    case Recording(matched) =>
      if !matched then
        SetPc(s, tid, Releasing(WrongPassword)).(
          attempts := AfterFailure(s.attempts, t.key, s.now), log := s.log + [Failed(t.key, s.now)])
      else
        SetPc(s, tid, if t.op.TryUnlock? then Minting else Storing).(
          attempts := AfterSuccess(s.attempts, t.key), log := s.log + [Succeeded(t.key, s.now)])
    case Minting =>
      SetPc(s, tid, Releasing(Unlocked)).(logins := s.logins + [Login(tid, s.now, |s.hashes|)])
  }

  /** The step of a goroutine that neither enters, takes, releases nor drops a key lock. */
  function Work(s: State, tid: Tid, c: Choice): State
    requires CanStep(s, tid) && !TouchesLock(s.threads[tid].pc)
  {
    var t := s.threads[tid];
    if InVerification(t.pc) then Verification(s, tid, c)
    else match t.pc
    case Starting =>
      if t.op.TryUnlock? then SetPc(s, tid, Reading)
      else if s.env.Some? then SetPc(s, tid, Returned(EnvPinned, |s.hashes|))
      else SetPc(s, tid, Entering)
    case Reading =>
      var h := CurrentHash(s);
      var done := if h.None? then (if t.op.TryUnlock? then Returned(NotConfigured, |s.hashes|) else Releasing(NotConfigured))
                  else if t.op.TryUnlock? then Entering else Checking;
      s.(threads := s.threads[tid := t.(pc := done, hash := h)])
    case Checking =>
      SetPc(s, tid, if Limited(s.attempts, t.key, s.now) then Releasing(RateLimited)
                    else if c.verifyFails then Releasing(VerifyError)
                    else Queueing(s.now))
    case Storing =>
      if c.storeFails || t.op.TryUnlock? then SetPc(s, tid, Releasing(StoreError))
      else Configure(SetPc(s, tid, Releasing(Changed)), Some(t.op.next))
    case _ => s
  }

  /** The password file now holds v; the effective password follows unless the environment pins it. */
  function Configure(s: State, v: Option<Password>): State {
    var s' := s.(stored := v);
    s'.(hashes := s.hashes + [CurrentHash(s')])
  }

  function Advance(s: State, tid: Tid, c: Choice): State
    requires CanStep(s, tid)
  {
    var pc := s.threads[tid].pc;
    if pc.Entering? then Enter(s, tid)
    else if pc.Waiting? then Acquire(s, tid)
    else if pc.Releasing? then Release(s, tid)
    else if pc.Dropping? then Drop(s, tid)
    else Work(s, tid, c)
  }

  function Apply(s: State, a: Action): State
    requires Enabled(s, a)
  {
    match a
    case Tick(d) => s.(now := s.now + d)
    case Call(tid, op, key, guess) =>
      s.(threads := s.threads[tid := Thread(op, key, guess, |s.hashes|, Starting, 0, None)])
    case Step(tid, c) => Advance(s, tid, c)
    case SetStored(v) => Configure(s, v)
  }

  /** The actions of run can be taken one after another from s. */
  predicate CanRun(s: State, run: seq<Action>)
    decreases |run|
  {
    run == [] || (Enabled(s, run[0]) && CanRun(Apply(s, run[0]), run[1..]))
  }

  function Run(s: State, run: seq<Action>): State
    requires CanRun(s, run)
    decreases |run|
  {
    if run == [] then s else Run(Apply(s, run[0]), run[1..])
  }
}
