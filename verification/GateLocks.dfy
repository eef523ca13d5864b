/** The table of per-key mutexes stays consistent in every interleaving. */
module GateLocks {
  import opened Backoff
  import opened Gate
  import opened Options

  /** The goroutines between their increment and their decrement of key's refs. */
  function Users(s: State, key: Key): set<Tid> {
    set tid | tid in s.threads && Counted(s.threads[tid]) && s.threads[tid].key == key
  }

  /** An entry exists exactly while some goroutine is counted, and counts them. */
  ghost predicate RefsCountUsers(s: State) {
    forall key :: CountsUsers(s, key)
  }

  predicate CountsUsers(s: State, key: Key) {
    if key in s.table
    then s.table[key] in s.locks && s.locks[s.table[key]].refs == |Users(s, key)| > 0
    else Users(s, key) == {}
  }

  /** All goroutines on a key share the mutex of its entry, and no two keys share one. */
  ghost predicate OneLockPerKey(s: State) {
    && (forall tid :: tid in s.threads && Counted(s.threads[tid]) ==>
          s.threads[tid].key in s.table && s.table[s.threads[tid].key] == s.threads[tid].lock)
    && (forall k, k' :: k in s.table && k' in s.table && s.table[k] == s.table[k'] ==> k == k')
    && (forall k :: k in s.table ==> s.table[k] in s.locks)
    && (forall l :: l in s.locks ==> l < s.nextLock)
  }

  /** The mutex of an entry is held exactly by the goroutine in its critical section. */
  ghost predicate HolderIsCritical(s: State) {
    && (forall tid :: tid in s.threads && Critical(s.threads[tid]) ==> HeldBy(s, s.threads[tid].lock, tid))
    && (forall k, tid :: k in s.table && HeldBy(s, s.table[k], tid) ==>
          tid in s.threads && Critical(s.threads[tid]) && s.threads[tid].key == k)
  }

  predicate HeldBy(s: State, l: LockId, tid: Tid) {
    l in s.locks && s.locks[l].holder == Some(tid)
  }

  ghost predicate LocksInv(s: State) {
    RefsCountUsers(s) && OneLockPerKey(s) && HolderIsCritical(s)
  }

  /** Users of every key after thread tid, whose key does not change, became t. */
  lemma UsersAfter(s: State, s': State, tid: Tid, t: Thread, key: Key)
    requires s'.threads == s.threads[tid := t]
    requires tid in s.threads ==> s.threads[tid].key == t.key
    ensures Users(s', key) == if key == t.key && Counted(t) then Users(s, key) + {tid}
                              else if key == t.key then Users(s, key) - {tid} else Users(s, key)
  {
  }

  /** A step that touches neither table nor locks and keeps every thread's place. */
  lemma Undisturbed(s: State, s': State, tid: Tid, t: Thread)
    requires LocksInv(s)
    requires s'.table == s.table && s'.locks == s.locks && s'.nextLock == s.nextLock
    requires s'.threads == s.threads[tid := t]
    requires if tid in s.threads
             then t.key == s.threads[tid].key && t.lock == s.threads[tid].lock
                  && Counted(t) == Counted(s.threads[tid]) && Critical(t) == Critical(s.threads[tid])
             else !Counted(t)
    ensures LocksInv(s')
  {
    forall key ensures CountsUsers(s', key) {
      UsersAfter(s, s', tid, t, key);
      assert CountsUsers(s, key);
    }
    assert HolderIsCritical(s') by {
      assert forall l, x :: HeldBy(s', l, x) == HeldBy(s, l, x);
    }
  }

  lemma EnterUsers(s: State, tid: Tid, key: Key)
    requires CanStep(s, tid) && s.threads[tid].pc.Entering?
    ensures tid !in Users(s, key)
    ensures Users(Enter(s, tid), key) == Users(s, key) + if key == s.threads[tid].key then {tid} else {}
  {
    var s' := Enter(s, tid);
    UsersAfter(s, s', tid, s'.threads[tid], key);
  }

  lemma CountsAt(s: State, key: Key, other: Key)
    requires RefsCountUsers(s) && OneLockPerKey(s)
    ensures CountsUsers(s, key)
    ensures key in s.table ==> s.table[key] < s.nextLock
    ensures key in s.table && other in s.table && s.table[key] == s.table[other] ==> key == other
  {
  }

  lemma EnterRefsOf(s: State, tid: Tid, key: Key)
    requires RefsCountUsers(s) && OneLockPerKey(s) && CanStep(s, tid) && s.threads[tid].pc.Entering?
    ensures CountsUsers(Enter(s, tid), key)
  {
    hide Users, Counted, RefsCountUsers, OneLockPerKey;
    var me := s.threads[tid].key;
    EnterUsers(s, tid, key);
    CountsAt(s, key, me);
    CountsAt(s, me, key);
  }

  lemma EnterKeepsRefs(s: State, tid: Tid)
    requires RefsCountUsers(s) && OneLockPerKey(s) && CanStep(s, tid) && s.threads[tid].pc.Entering?
    ensures RefsCountUsers(Enter(s, tid))
  {
    forall key {
      EnterRefsOf(s, tid, key);
    }
  }

  lemma EnterKeepsShared(s: State, tid: Tid)
    requires OneLockPerKey(s) && CanStep(s, tid) && s.threads[tid].pc.Entering?
    requires forall x :: x in s.threads && Counted(s.threads[x]) ==> s.threads[x].key in s.table
    ensures OneLockPerKey(Enter(s, tid))
  {
  }

  lemma EnterKeepsHolder(s: State, tid: Tid)
    requires OneLockPerKey(s) && HolderIsCritical(s) && CanStep(s, tid) && s.threads[tid].pc.Entering?
    ensures HolderIsCritical(Enter(s, tid))
  {
  }

  lemma AcquireKeeps(s: State, tid: Tid)
    requires LocksInv(s) && CanStep(s, tid) && s.threads[tid].pc.Waiting?
    ensures LocksInv(Acquire(s, tid))
  {
    var s', t := Acquire(s, tid), s.threads[tid];
    forall key ensures CountsUsers(s', key) {
      UsersAfter(s, s', tid, s'.threads[tid], key);
      assert Users(s', key) == Users(s, key);
      assert CountsUsers(s, key);
    }
    HandOver(s, s', tid, Some(tid));
  }

  lemma ReleaseKeeps(s: State, tid: Tid)
    requires LocksInv(s) && CanStep(s, tid) && s.threads[tid].pc.Releasing?
    ensures LocksInv(Release(s, tid))
  {
    var s', t := Release(s, tid), s.threads[tid];
    forall key ensures CountsUsers(s', key) {
      UsersAfter(s, s', tid, s'.threads[tid], key);
      assert Users(s', key) == Users(s, key);
      assert CountsUsers(s, key);
    }
    HandOver(s, s', tid, None);
  }

  /** Thread tid takes or gives up its own mutex. */
  lemma HandOver(s: State, s': State, tid: Tid, h: Option<Tid>)
    requires OneLockPerKey(s) && HolderIsCritical(s) && tid in s.threads && tid in s'.threads
    requires var t, t' := s.threads[tid], s'.threads[tid];
      && s'.threads == s.threads[tid := t'] && s'.table == s.table && s'.nextLock == s.nextLock
      && Counted(t) && Counted(t') && t'.key == t.key && t'.lock == t.lock && t.lock in s.locks
      && s'.locks == s.locks[t.lock := s.locks[t.lock].(holder := h)]
      && (if Critical(t') then h == Some(tid) else h.None?)
      && (s.locks[t.lock].holder.None? || s.locks[t.lock].holder == Some(tid))
    ensures OneLockPerKey(s') && HolderIsCritical(s')
  {
  }

  /** When a goroutine's key has one reference left, it is the only one there. */
  lemma LastUser(s: State, tid: Tid, other: Tid)
    requires tid in s.threads && Counted(s.threads[tid]) && |Users(s, s.threads[tid].key)| == 1
    requires other in s.threads && Counted(s.threads[other]) && s.threads[other].key == s.threads[tid].key
    ensures other == tid
  {
    var u := Users(s, s.threads[tid].key);
    assert tid in u && other in u;
    assert |u - {tid}| == 0;
  }

  lemma DropKeepsRefs(s: State, tid: Tid)
    requires RefsCountUsers(s) && OneLockPerKey(s) && CanStep(s, tid) && s.threads[tid].pc.Dropping?
    ensures RefsCountUsers(Drop(s, tid))
  {
    var s', t := Drop(s, tid), s.threads[tid];
    forall key ensures CountsUsers(s', key) {
      assert CountsUsers(s, key) && CountsUsers(s, t.key);
      UsersAfter(s, s', tid, s'.threads[tid], key);
      assert tid in Users(s, t.key);
    }
  }

  lemma DropKeepsOthers(s: State, tid: Tid)
    requires LocksInv(s) && CanStep(s, tid) && s.threads[tid].pc.Dropping?
    ensures OneLockPerKey(Drop(s, tid)) && HolderIsCritical(Drop(s, tid))
  {
    var s', t := Drop(s, tid), s.threads[tid];
    forall x | x in s'.threads && Counted(s'.threads[x])
      ensures s'.threads[x].key in s'.table && s'.table[s'.threads[x].key] == s'.threads[x].lock
    {
      if s.threads[x].key == t.key && t.key !in s'.table {
        assert CountsUsers(s, t.key);
        LastUser(s, tid, x);
      }
    }
    forall k, x | k in s'.table && HeldBy(s', s'.table[k], x)
      ensures x in s'.threads && Critical(s'.threads[x]) && s'.threads[x].key == k
    {
      assert HeldBy(s, s.table[k], x);
    }
    forall x | x in s'.threads && Critical(s'.threads[x]) ensures HeldBy(s', s'.threads[x].lock, x) {
      assert HeldBy(s, s.threads[x].lock, x);
    }
  }

  lemma StepKeepsLocks(s: State, a: Action)
    requires LocksInv(s) && Enabled(s, a)
    ensures LocksInv(Apply(s, a))
  {
    if a.Tick? || a.SetStored? {
      forall key ensures CountsUsers(Apply(s, a), key) {
        assert CountsUsers(s, key) && Users(Apply(s, a), key) == Users(s, key);
      }
      assert forall l, x :: HeldBy(Apply(s, a), l, x) == HeldBy(s, l, x);
    } else if a.Step? && s.threads[a.tid].pc.Entering? {
      EnterKeepsRefs(s, a.tid);
      EnterKeepsShared(s, a.tid);
      EnterKeepsHolder(s, a.tid);
    } else if a.Step? && s.threads[a.tid].pc.Waiting? {
      AcquireKeeps(s, a.tid);
    } else if a.Step? && s.threads[a.tid].pc.Releasing? {
      ReleaseKeeps(s, a.tid);
    } else if a.Step? && s.threads[a.tid].pc.Dropping? {
      DropKeepsRefs(s, a.tid);
      DropKeepsOthers(s, a.tid);
    } else if a.Step? {
      WorkKeeps(s, a.tid, a.choice);
    } else {
      Undisturbed(s, Apply(s, a), a.tid, Apply(s, a).threads[a.tid]);
    }
  }

  /** What a step of thread tid leaves alone that neither enters, takes, releases nor
      drops a key lock. */
  ghost predicate Framed(s: State, s': State, tid: Tid)
    requires tid in s.threads
  {
    var t := s.threads[tid];
    && s'.table == s.table && s'.locks == s.locks && s'.nextLock == s.nextLock
    && tid in s'.threads
    && var t' := s'.threads[tid];
    && s'.threads == s.threads[tid := t']
    && t'.key == t.key && t'.lock == t.lock && Counted(t') == Counted(t) && Critical(t') == Critical(t)
    && (s'.attempts == s.attempts || s'.attempts == AfterSuccess(s.attempts, t.key)
        || s'.attempts == AfterFailure(s.attempts, t.key, s.now))
  }

  lemma VerificationFrame(s: State, tid: Tid, c: Choice)
    requires CanStep(s, tid) && InVerification(s.threads[tid].pc)
    ensures Framed(s, Verification(s, tid, c), tid)
  {
    hide AfterSuccess, AfterFailure;
  }

  lemma WorkFrame(s: State, tid: Tid, c: Choice)
    requires CanStep(s, tid) && !TouchesLock(s.threads[tid].pc)
    ensures Framed(s, Work(s, tid, c), tid)
  {
    hide Verification, AfterSuccess, AfterFailure, Limited, CurrentHash;
    if InVerification(s.threads[tid].pc) {
      VerificationFrame(s, tid, c);
    }
  }

  lemma WorkKeeps(s: State, tid: Tid, c: Choice)
    requires LocksInv(s) && CanStep(s, tid)
    requires !TouchesLock(s.threads[tid].pc)
    ensures LocksInv(Work(s, tid, c))
  {
    WorkFrame(s, tid, c);
    var s' := Work(s, tid, c);
    Undisturbed(s, s', tid, s'.threads[tid]);
  }

  lemma {:induction false} LocksInvAlong(s: State, run: seq<Action>)
    requires LocksInv(s) && CanRun(s, run)
    ensures LocksInv(Run(s, run))
    decreases |run|
  {
    if run != [] {
      StepKeepsLocks(s, run[0]);
      LocksInvAlong(Apply(s, run[0]), run[1..]);
    }
  }

  lemma InitLocks(env: Option<Password>, stored: Option<Password>)
    ensures LocksInv(Init(env, stored))
  {
  }

  /** In every interleaving the table counts the goroutines using each key, they share
      one mutex, at most one of them is in the critical section, and the table is empty
      once every call has returned. */
  lemma TableCountsUsers(env: Option<Password>, stored: Option<Password>, run: seq<Action>)
    requires CanRun(Init(env, stored), run)
    ensures var s := Run(Init(env, stored), run);
      && RefsCountUsers(s)
      && OneLockPerKey(s)
      && (forall a, b :: a in s.threads && b in s.threads && Critical(s.threads[a]) && Critical(s.threads[b]) ==>
            s.threads[a].key != s.threads[b].key || a == b)
      && ((forall tid :: tid in s.threads ==> s.threads[tid].pc.Returned?) ==> s.table == map[])
  {
    InitLocks(env, stored);
    LocksInvAlong(Init(env, stored), run);
    var s := Run(Init(env, stored), run);
    if forall tid :: tid in s.threads ==> s.threads[tid].pc.Returned? {
      forall key ensures key !in s.table {
        assert CountsUsers(s, key) && Users(s, key) == {};
      }
    }
  }

  /** But for the verification slots, a step of a goroutine on one key changes nothing
      that goroutines on another key look at: their failure count and lockout, their entry
      and their mutex. */
  lemma OtherKeysUntouched(s: State, tid: Tid, c: Choice, key: Key)
    requires LocksInv(s) && CanStep(s, tid) && key != s.threads[tid].key
    ensures var s' := Apply(s, Step(tid, c));
      && (key in s'.attempts <==> key in s.attempts)
      && (key in s.attempts ==> s'.attempts[key] == s.attempts[key])
      && (key in s'.table <==> key in s.table)
      && (key in s.table ==> s'.table[key] == s.table[key] && s.table[key] in s'.locks
                             && s'.locks[s.table[key]] == s.locks[s.table[key]])
  {
    var pc := s.threads[tid].pc;
    if !TouchesLock(pc) {
      WorkFrame(s, tid, c);
    }
  }
}
