/** What the password gate keeps of its calls: every comparison is recorded exactly once,
    every Unlocked goes with exactly one token, and only Changed replaces the password. */
module GateRecords {
  import opened Backoff
  import opened Gate
  import opened GateOutcomes
  import opened GateSlots
  import opened Options

  /** How the comparison came out, once it has been recorded. */
  function Verdict(pc: Pc): Option<bool> {
    match pc
    case Minting => Some(true)
    case Storing => Some(true)
    case Releasing(o) => VerdictOf(o)
    case Dropping(o) => VerdictOf(o)
    case Returned(o, _) => VerdictOf(o)
    case _ => None
  }

  function VerdictOf(o: Outcome): Option<bool> {
    if o.WrongPassword? then Some(false)
    else if o.Unlocked? || o.Changed? || o.StoreError? then Some(true)
    else None
  }

  function SettledOn(s: State, key: Key, matched: bool): set<Tid> {
    set tid | tid in s.threads && s.threads[tid].key == key && Verdict(s.threads[tid].pc) == Some(matched)
  }

  function UnlockedOn(s: State): set<Tid> {
    set tid | tid in s.threads && Ends(s.threads[tid].pc, Unlocked)
  }

  /** How many results of one kind the log holds for a key. */
  function Recorded(log: seq<Event>, key: Key, matched: bool): nat {
    if log == [] then 0
    else
      var e := log[|log| - 1];
      Recorded(log[..|log| - 1], key, matched) + if e.key == key && e.Succeeded? == matched then 1 else 0
  }

  predicate CountsFor(s: State, key: Key, matched: bool) {
    |SettledOn(s, key, matched)| == Recorded(s.log, key, matched)
  }

  ghost predicate RecordsInv(s: State) {
    (forall key, matched :: CountsFor(s, key, matched)) && |UnlockedOn(s)| == |s.logins|
  }

  /** Thread tid moved, and whatever it settled or unlocked by that was written down. */
  ghost predicate WritesDown(s: State, s': State, tid: Tid)
    requires tid in s.threads && tid in s'.threads
  {
    var t, t' := s.threads[tid], s'.threads[tid];
    && t'.key == t.key
    && (Verdict(t.pc).Some? ==> Verdict(t'.pc) == Verdict(t.pc)) && (Ends(t.pc, Unlocked) ==> Ends(t'.pc, Unlocked))
    && |s'.logins| == |s.logins| + (if Ends(t'.pc, Unlocked) && !Ends(t.pc, Unlocked) then 1 else 0)
    && s'.log == s.log + NewEvents(t, t', s.now)
  }

  function NewEvents(t: Thread, t': Thread, now: nat): seq<Event> {
    if Verdict(t.pc).Some? || Verdict(t'.pc).None? then []
    else if Verdict(t'.pc).value then [Succeeded(t.key, now)]
    else [Failed(t.key, now)]
  }

  lemma RecordingWritesDown(s: State, tid: Tid, c: Choice)
    requires CanStep(s, tid) && s.threads[tid].pc.Recording?
    ensures tid in Verification(s, tid, c).threads && WritesDown(s, Verification(s, tid, c), tid)
  {
    hide AfterSuccess, AfterFailure;
  }

  lemma VerificationWritesDown(s: State, tid: Tid, c: Choice)
    requires CanStep(s, tid) && InVerification(s.threads[tid].pc) && !s.threads[tid].pc.Recording?
    ensures tid in Verification(s, tid, c).threads && WritesDown(s, Verification(s, tid, c), tid)
  {
    hide AfterSuccess, AfterFailure;
  }

  lemma WorkWritesDown(s: State, tid: Tid, c: Choice)
    requires CanStep(s, tid) && !TouchesLock(s.threads[tid].pc)
    ensures tid in Work(s, tid, c).threads && WritesDown(s, Work(s, tid, c), tid)
  {
    hide Verification, Limited, CurrentHash;
    if s.threads[tid].pc.Recording? {
      RecordingWritesDown(s, tid, c);
    } else if InVerification(s.threads[tid].pc) {
      VerificationWritesDown(s, tid, c);
    }
  }

  lemma AdvanceWritesDown(s: State, tid: Tid, c: Choice)
    requires CanStep(s, tid)
    ensures tid in Advance(s, tid, c).threads && WritesDown(s, Advance(s, tid, c), tid)
  {
    hide Work;
    if !TouchesLock(s.threads[tid].pc) {
      hide WritesDown;
      WorkWritesDown(s, tid, c);
    }
  }

  lemma RecordedGrows(log: seq<Event>, e: Event, key: Key, matched: bool)
    ensures Recorded(log + [e], key, matched)
         == Recorded(log, key, matched) + if e.key == key && e.Succeeded? == matched then 1 else 0
  {
    assert (log + [e])[..|log|] == log;
  }

  lemma CountMoves(s: State, s': State, tid: Tid, key: Key, matched: bool)
    requires CountsFor(s, key, matched) && tid in s.threads && tid in s'.threads && WritesDown(s, s', tid)
    requires s'.threads == s.threads[tid := s'.threads[tid]]
    ensures CountsFor(s', key, matched)
  {
    hide Verdict, Ends, Recorded;
    var t, t' := s.threads[tid], s'.threads[tid];
    assert tid in SettledOn(s, key, matched) <==> t.key == key && Verdict(t.pc) == Some(matched);
    if t.key == key && Verdict(t'.pc) == Some(matched) {
      assert SettledOn(s', key, matched) == SettledOn(s, key, matched) + {tid};
    } else {
      assert SettledOn(s', key, matched) == SettledOn(s, key, matched);
    }
    if s'.log != s.log {
      RecordedGrows(s.log, s'.log[|s.log|], key, matched);
    }
  }

  lemma UnlocksMove(s: State, s': State, tid: Tid)
    requires |UnlockedOn(s)| == |s.logins| && tid in s.threads && tid in s'.threads && WritesDown(s, s', tid)
    requires s'.threads == s.threads[tid := s'.threads[tid]]
    ensures |UnlockedOn(s')| == |s'.logins|
  {
    hide Verdict, Ends;
    assert tid in UnlockedOn(s) <==> Ends(s.threads[tid].pc, Unlocked);
    if Ends(s'.threads[tid].pc, Unlocked) {
      assert UnlockedOn(s') == UnlockedOn(s) + {tid};
    } else {
      assert UnlockedOn(s') == UnlockedOn(s);
    }
  }

  lemma StepKeepsRecords(s: State, a: Action)
    requires RecordsInv(s) && Enabled(s, a)
    ensures RecordsInv(Apply(s, a))
  {
    hide Advance, Ends, WritesDown, UnlockedOn, CountsFor;
    var s' := Apply(s, a);
    if a.Step? {
      AdvanceWritesDown(s, a.tid, a.choice);
      AdvanceMoves(s, a.tid, a.choice);
      UnlocksMove(s, s', a.tid);
      forall key, matched ensures CountsFor(s', key, matched) {
        CountMoves(s, s', a.tid, key, matched);
      }
    } else {
      SameRecords(s, a);
    }
  }

  lemma SameRecords(s: State, a: Action)
    requires RecordsInv(s) && Enabled(s, a) && !a.Step?
    ensures RecordsInv(Apply(s, a))
  {
    var s' := Apply(s, a);
    assert UnlockedOn(s') == UnlockedOn(s);
    forall key, matched ensures CountsFor(s', key, matched) {
      assert CountsFor(s, key, matched);
      assert SettledOn(s', key, matched) == SettledOn(s, key, matched);
    }
  }

  lemma {:induction false} RecordsAlong(s: State, run: seq<Action>)
    requires RecordsInv(s) && CanRun(s, run)
    ensures RecordsInv(Run(s, run))
    decreases |run|
  {
    hide RecordsInv, Apply, Enabled;
    if run != [] {
      StepKeepsRecords(s, run[0]);
      RecordsAlong(Apply(s, run[0]), run[1..]);
    }
  }

  /** In every interleaving the log holds one failure for each call on a key that came to
      WrongPassword and one success for each that was granted, and there is one token for
      each Unlocked: no guess goes unrecorded, and none is recorded twice. */
  lemma EveryGuessIsRecordedOnce(env: Option<Password>, stored: Option<Password>, run: seq<Action>, key: Key)
    requires CanRun(Init(env, stored), run)
    ensures var s := Run(Init(env, stored), run);
      && |SettledOn(s, key, false)| == Recorded(s.log, key, false)
      && |SettledOn(s, key, true)| == Recorded(s.log, key, true)
      && |UnlockedOn(s)| == |s.logins|
  {
    var s0 := Init(env, stored);
    assert UnlockedOn(s0) == {};
    forall k, matched ensures CountsFor(s0, k, matched) {
      assert SettledOn(s0, k, matched) == {};
    }
    RecordsAlong(s0, run);
    var s := Run(s0, run);
    assert CountsFor(s, key, false) && CountsFor(s, key, true);
  }

  // ------------------------------------------------------------- the stored password

  ghost predicate StoresFor(s: State) {
    forall tid :: tid in s.threads && s.threads[tid].pc.Storing? ==> s.threads[tid].op.ChangePassword?
  }

  /** What one action does to the stored password. */
  ghost predicate StoresExactly(s: State, s': State, a: Action)
    requires Enabled(s, a)
  {
    if a.SetStored? then s'.stored == a.value
    else if a.Step? && s.threads[a.tid].pc.Storing? && !a.choice.storeFails then
      && s.threads[a.tid].op.ChangePassword? && s'.stored == Some(s.threads[a.tid].op.next)
      && a.tid in s'.threads && s'.threads[a.tid].pc == Releasing(Changed)
    else
      && s'.stored == s.stored
      && (a.Step? ==> a.tid in s'.threads
                      && (Ends(s'.threads[a.tid].pc, Changed) ==> Ends(s.threads[a.tid].pc, Changed)))
  }

  /** The stored password stays, and thread tid has not come to Changed. */
  ghost predicate StoresNothing(s: State, s': State, tid: Tid)
    requires tid in s.threads
  {
    && s'.stored == s.stored && s'.env == s.env && tid in s'.threads
    && !Ends(s'.threads[tid].pc, Changed) && StoresRight(s'.threads[tid])
  }

  lemma RecordingStores(s: State, tid: Tid, c: Choice)
    requires CanStep(s, tid) && s.threads[tid].pc.Recording?
    ensures StoresNothing(s, Verification(s, tid, c), tid)
  {
    hide AfterSuccess, AfterFailure;
  }

  lemma VerificationStores(s: State, tid: Tid, c: Choice)
    requires CanStep(s, tid) && InVerification(s.threads[tid].pc)
    ensures StoresNothing(s, Verification(s, tid, c), tid)
  {
    if s.threads[tid].pc.Recording? {
      hide Verification;
      RecordingStores(s, tid, c);
    }
  }

  lemma WorkStores(s: State, tid: Tid, c: Choice)
    requires StoresFor(s) && CanStep(s, tid) && !TouchesLock(s.threads[tid].pc)
    ensures StoresExactly(s, Work(s, tid, c), Step(tid, c)) && Work(s, tid, c).env == s.env
    ensures tid in Work(s, tid, c).threads && StoresRight(Work(s, tid, c).threads[tid])
  {
    assert s.threads[tid].pc.Storing? ==> s.threads[tid].op.ChangePassword?;
    hide Verification, Limited, StoresFor, CurrentHash;
    if InVerification(s.threads[tid].pc) {
      VerificationStores(s, tid, c);
    }
  }

  predicate StoresRight(t: Thread) {
    t.pc.Storing? ==> t.op.ChangePassword?
  }

  lemma StepStores(s: State, a: Action)
    requires StoresFor(s) && Enabled(s, a)
    ensures StoresExactly(s, Apply(s, a), a) && StoresFor(Apply(s, a)) && Apply(s, a).env == s.env
  {
    hide Work;
    if a.Step? {
      AdvanceMoves(s, a.tid, a.choice);
      if !TouchesLock(s.threads[a.tid].pc) {
        WorkStores(s, a.tid, a.choice);
      }
    }
  }

  /** The write that an action is known by: a call coming to Changed, or one from outside. */
  function Written(s: State, a: Action): Option<Option<Password>>
    requires Enabled(s, a)
  {
    var s' := Apply(s, a);
    if a.SetStored? then Some(a.value)
    else if a.Step? && a.tid in s'.threads && s.threads[a.tid].op.ChangePassword?
            && Ends(s'.threads[a.tid].pc, Changed) && !Ends(s.threads[a.tid].pc, Changed) then
      Some(Some(s.threads[a.tid].op.next))
    else None
  }

  function LastWritten(s: State, run: seq<Action>): Option<Option<Password>>
    requires CanRun(s, run)
    decreases |run|
  {
    if run == [] then None
    else
      var later := LastWritten(Apply(s, run[0]), run[1..]);
      if later.Some? then later else Written(s, run[0])
  }

  /** In every run the stored password is the one that the last ChangePassword to come to
      Changed was given, or was last set from outside since, or the one at the start: no
      other call touches it. */
  lemma StoredIsLastWritten(env: Option<Password>, stored: Option<Password>, run: seq<Action>)
    requires CanRun(Init(env, stored), run)
    ensures Run(Init(env, stored), run).stored == (
      match LastWritten(Init(env, stored), run) { case Some(v) => v case None => stored })
  {
    StoredAlong(Init(env, stored), run);
  }

  lemma {:induction false} StoredAlong(s: State, run: seq<Action>)
    requires StoresFor(s) && CanRun(s, run)
    ensures Run(s, run).stored == (
      match LastWritten(s, run) { case Some(v) => v case None => s.stored })
    decreases |run|
  {
    hide Apply, Enabled, StoresFor;
    if run != [] {
      StepStores(s, run[0]);
      StoredAlong(Apply(s, run[0]), run[1..]);
    }
  }
}
