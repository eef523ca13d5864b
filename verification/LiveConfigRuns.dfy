/** Concurrent netgate updates: requests interleave step by step around the package mutex
    and the temp-file, chmod, rename sequence of backend/internal/atomicfile/atomicfile.go,
    any step can fail, and the process can die between any two of them. */
module LiveConfigRuns {
  import opened Options
  import opened Backstop
  import opened LiveConfig

  type Tid = nat

  /** The bytes of a file: a whole document, or the start of one that is being written. */
  datatype Text = Whole(doc: Config) | Partial(doc: Config)

  datatype File = File(text: Text, mode: int)

  /** 0o644 */
  const MODE := 420

  datatype Result = Success | Refused(error: Error) | Failed

  /** One request. `started` and `seen` count the updates committed when it arrived and
      when it read the file; `next` is the document it is about to write. */
  datatype Pc =
    | Waiting(u: Update, started: nat)
    | Locked(u: Update, started: nat)
    | Ready(u: Update, started: nat, seen: nat, next: Config)
    | Opened(u: Update, started: nat, seen: nat, next: Config)
    | Filled(u: Update, started: nat, seen: nat, next: Config)
    | Moded(u: Update, started: nat, seen: nat, next: Config)
    | Leaving(u: Update, started: nat, seen: nat, result: Result)
    | Returned(u: Update, started: nat, seen: nat, result: Result)
    | Dead(u: Update)

  datatype Entry = Entry(owner: Tid, u: Update)

  /** `log` remembers the renames in order. */
  datatype State = State(pcs: map<Tid, Pc>, lock: Option<Tid>, live: Option<File>, tmp: Option<File>, log: seq<Entry>)

  /** Open leaves the temporary file truncated, with a mode that may be left over from an
      earlier crash; Fill completes it. */
  datatype Action =
    | Start(t: Tid, u: Update)
    | Lock(t: Tid)
    | Load(t: Tid, ok: bool)
    | Open(t: Tid, ok: bool, mode: int)
    | Fill(t: Tid, ok: bool)
    | Chmod(t: Tid, ok: bool)
    | Rename(t: Tid, ok: bool)
    | Unlock(t: Tid)
    | Crash

  function To(s: State, t: Tid, pc: Pc): State {
    s.(pcs := s.pcs[t := pc])
  }

  function Fails(s: State, t: Tid): State
    requires t in s.pcs && InWrite(s.pcs[t])
  {
    To(s, t, Leaving(s.pcs[t].u, s.pcs[t].started, s.pcs[t].seen, Failed))
  }

  predicate InWrite(pc: Pc) {
    pc.Ready? || pc.Opened? || pc.Filled? || pc.Moded?
  }

  predicate Critical(pc: Pc) {
    pc.Locked? || InWrite(pc) || pc.Leaving?
  }

  function Loading(s: State, t: Tid, ok: bool): State
    requires t in s.pcs && s.pcs[t].Locked?
  {
    var pc, now := s.pcs[t], |s.log|;
    if !ok || (s.live.Some? && s.live.value.text.Partial?) then
      To(s, t, Leaving(pc.u, pc.started, now, Failed))
    else
      var cfg := if s.live.Some? then s.live.value.text.doc else EMPTY;
      var (next, refused) := Apply(cfg, pc.u);
      if refused.Some? then To(s, t, Leaving(pc.u, pc.started, now, Refused(refused.value)))
      else To(s, t, Ready(pc.u, pc.started, now, next))
  }

  predicate Enabled(s: State, a: Action) {
    match a
    case Start(t, _) => t !in s.pcs
    case Lock(t) => t in s.pcs && s.pcs[t].Waiting? && s.lock.None?
    case Load(t, _) => t in s.pcs && s.pcs[t].Locked?
    case Open(t, _, _) => t in s.pcs && s.pcs[t].Ready?
    case Fill(t, _) => t in s.pcs && s.pcs[t].Opened?
    case Chmod(t, _) => t in s.pcs && s.pcs[t].Filled?
    case Rename(t, _) => t in s.pcs && s.pcs[t].Moded?
    case Unlock(t) => t in s.pcs && s.pcs[t].Leaving?
    case Crash => true
  }

  function Killed(pc: Pc): Pc {
    if pc.Returned? || pc.Dead? then pc else Dead(pc.u)
  }

  function Step(s: State, a: Action, env: Env): State
    requires Enabled(s, a)
  {
    match a
    case Start(t, u) =>
      To(s, t, if Admitted(u, env) then Waiting(u, |s.log|) else Returned(u, |s.log|, |s.log|, Refused(Validation)))
    case Lock(t) => To(s.(lock := Some(t)), t, Locked(s.pcs[t].u, s.pcs[t].started))
    case Load(t, ok) => Loading(s, t, ok)
    case Open(t, ok, mode) =>
      var pc := s.pcs[t];
      if !ok then Fails(s, t)
      else To(s.(tmp := Some(File(Partial(pc.next), mode))), t, Opened(pc.u, pc.started, pc.seen, pc.next))
    case Fill(t, ok) =>
      var pc := s.pcs[t];
      if !ok || s.tmp.None? then Fails(s, t)
      else To(s.(tmp := Some(s.tmp.value.(text := Whole(pc.next)))), t, Filled(pc.u, pc.started, pc.seen, pc.next))
    case Chmod(t, ok) =>
      var pc := s.pcs[t];
      if !ok || s.tmp.None? then Fails(s, t)
      else To(s.(tmp := Some(s.tmp.value.(mode := MODE))), t, Moded(pc.u, pc.started, pc.seen, pc.next))
    case Rename(t, ok) =>
      var pc := s.pcs[t];
      if !ok || s.tmp.None? then Fails(s, t)
      else To(s.(live := s.tmp, tmp := None, log := s.log + [Entry(t, pc.u)]), t, Leaving(pc.u, pc.started, pc.seen, Success))
    case Unlock(t) =>
      var pc := s.pcs[t];
      To(s.(lock := None), t, Returned(pc.u, pc.started, pc.seen, pc.result))
    case Crash => s.(lock := None, pcs := map t | t in s.pcs :: Killed(s.pcs[t]))
  }

  predicate CanRun(s: State, run: seq<Action>, env: Env)
    decreases |run|
  {
    run == [] || (Enabled(s, run[0]) && CanRun(Step(s, run[0], env), run[1..], env))
  }

  function Run(s: State, run: seq<Action>, env: Env): State
    requires CanRun(s, run, env)
    decreases |run|
  {
    if run == [] then s else Run(Step(s, run[0], env), run[1..], env)
  }

  /** The committed updates, one after another. */
  function Replay(c: Config, log: seq<Entry>): Config {
    if log == [] then c else Apply(Replay(c, log[..|log| - 1]), log[|log| - 1].u).0
  }

  function Before(start: Option<File>): Config {
    if start.Some? then start.value.text.doc else EMPTY
  }

  // ------------------------------------------------------------------ invariant

  /** How a finished request relates to the serial order: it behaved as if it had run
      alone after the first `seen` committed updates. */
  predicate Serial(t: Tid, u: Update, started: nat, seen: nat, result: Result, log: seq<Entry>, base: Config, env: Env) {
    && started <= seen <= |log|
    && match result
       case Success => seen < |log| && log[seen] == Entry(t, u)
       case Refused(e) => if Admitted(u, env) then Apply(Replay(base, log[..seen]), u).1 == Some(e) else e == Validation
       case Failed => true
  }

  /** What holds of a request that has loaded the file and not yet replaced it. */
  predicate WriterOk(pc: Pc, s: State, base: Config, env: Env)
    requires InWrite(pc)
  {
    && pc.started <= pc.seen == |s.log| && Admitted(pc.u, env)
    && Apply(Replay(base, s.log), pc.u) == (pc.next, None)
    && (pc.Ready? || s.tmp.Some?)
    && (pc.Filled? ==> s.tmp.value.text == Whole(pc.next))
    && (pc.Moded? ==> s.tmp == Some(File(Whole(pc.next), MODE)))
  }

  /** What holds of one request. */
  predicate PcOk(t: Tid, pc: Pc, s: State, base: Config, env: Env) {
    && (Critical(pc) ==> s.lock == Some(t))
    && match pc
       case Waiting(u, started) => started <= |s.log| && Admitted(u, env)
       case Locked(u, started) => started <= |s.log| && Admitted(u, env)
       case Leaving(u, started, seen, result) => Serial(t, u, started, seen, result, s.log, base, env)
       case Returned(u, started, seen, result) => Serial(t, u, started, seen, result, s.log, base, env)
       case Dead(_) => true
       case _ => WriterOk(pc, s, base, env)
  }

  /** The entry at k of the log was admitted, went through, and belongs to a request that
      committed exactly there. */
  predicate EntryOk(k: nat, s: State, base: Config, env: Env)
    requires k < |s.log|
  {
    var e := s.log[k];
    && Admitted(e.u, env) && Apply(Replay(base, s.log[..k]), e.u).1 == None
    && e.owner in s.pcs
    && match s.pcs[e.owner]
       case Leaving(_, _, seen, result) => result == Success && seen == k
       case Returned(_, _, seen, result) => result == Success && seen == k
       case Dead(_) => true
       case _ => false
  }

  predicate LiveOk(s: State, start: Option<File>) {
    && (s.log == [] ==> s.live == start)
    && (s.log != [] ==> s.live == Some(File(Whole(Replay(Before(start), s.log)), MODE)))
  }

  predicate Inv(s: State, start: Option<File>, env: Env) {
    && (start.Some? ==> start.value.text.Whole?)
    && LiveOk(s, start)
    && (forall t :: t in s.pcs ==> PcOk(t, s.pcs[t], s, Before(start), env))
    && (forall k :: 0 <= k < |s.log| ==> EntryOk(k, s, Before(start), env))
  }

  /** Moving one request without touching the log. */
  lemma QuietStep(s: State, s': State, t: Tid, start: Option<File>, env: Env)
    requires Inv(s, start, env)
    requires s'.log == s.log && s'.live == s.live
    requires t in s'.pcs && s'.pcs == s.pcs[t := s'.pcs[t]]
    requires PcOk(t, s'.pcs[t], s', Before(start), env)
    requires s'.lock == s.lock || s.lock == None || (s.lock == Some(t) && s'.lock == None)
    requires s'.tmp == s.tmp || s.lock == Some(t)
    requires t in s.pcs ==> !s.pcs[t].Returned? && !s.pcs[t].Dead?
    requires t in s.pcs && s.pcs[t].Leaving? ==>
      s'.pcs[t] == Returned(s.pcs[t].u, s.pcs[t].started, s.pcs[t].seen, s.pcs[t].result)
    ensures Inv(s', start, env)
  {
    hide Apply, Admitted, Replay, Serial;
    var base := Before(start);
    forall o | o in s'.pcs ensures PcOk(o, s'.pcs[o], s', base, env) {
      if o != t {
        assert PcOk(o, s.pcs[o], s, base, env);
      }
    }
    forall k | 0 <= k < |s'.log| ensures EntryOk(k, s', base, env) {
      assert EntryOk(k, s, base, env);
    }
  }

  lemma ReplayExtends(c: Config, log: seq<Entry>, e: Entry)
    ensures Replay(c, log + [e]) == Apply(Replay(c, log), e.u).0
  {
  }

  lemma LoadSeesReplay(s: State, start: Option<File>, env: Env)
    requires Inv(s, start, env)
    ensures s.live.Some? ==> s.live.value.text == Whole(Replay(Before(start), s.log))
    ensures s.live.None? ==> Replay(Before(start), s.log) == EMPTY
  {
  }

  lemma RenameKeepsInv(s: State, t: Tid, start: Option<File>, env: Env)
    requires Inv(s, start, env) && t in s.pcs && s.pcs[t].Moded?
    ensures Inv(Step(s, Rename(t, true), env), start, env)
  {
    hide Apply, Admitted;
    var base, pc := Before(start), s.pcs[t];
    var e := Entry(t, pc.u);
    var s' := Step(s, Rename(t, true), env);
    assert PcOk(t, pc, s, base, env);
    ReplayExtends(base, s.log, e);
    assert s'.log == s.log + [e];
    forall o | o in s'.pcs ensures PcOk(o, s'.pcs[o], s', base, env) {
      if o != t {
        assert PcOk(o, s.pcs[o], s, base, env);
        OutcomeStays(s, s', o, base, env, e);
      }
    }
    forall k | 0 <= k < |s'.log| ensures EntryOk(k, s', base, env) {
      if k < |s.log| {
        assert EntryOk(k, s, base, env);
        assert s'.log[..k] == s.log[..k];
      } else {
        assert s'.log[..k] == s.log;
      }
    }
  }

  lemma OutcomeStays(s: State, s': State, o: Tid, base: Config, env: Env, e: Entry)
    requires o in s.pcs && o in s'.pcs && s'.pcs[o] == s.pcs[o] && s'.log == s.log + [e]
    requires PcOk(o, s.pcs[o], s, base, env) && !Critical(s.pcs[o])
    ensures PcOk(o, s'.pcs[o], s', base, env)
  {
    hide Apply, Admitted, Replay;
    var pc := s.pcs[o];
    if pc.Returned? {
      assert s'.log[..pc.seen] == s.log[..pc.seen];
    }
  }

  lemma CrashKeepsInv(s: State, start: Option<File>, env: Env)
    requires Inv(s, start, env)
    ensures Inv(Step(s, Crash, env), start, env)
  {
    hide Apply, Admitted, Replay, Serial;
    var s', base := Step(s, Crash, env), Before(start);
    forall o | o in s'.pcs ensures PcOk(o, s'.pcs[o], s', base, env) {
      assert PcOk(o, s.pcs[o], s, base, env);
    }
    forall k | 0 <= k < |s'.log| ensures EntryOk(k, s', base, env) {
      assert EntryOk(k, s, base, env);
    }
  }

  lemma StepKeepsInv(s: State, a: Action, start: Option<File>, env: Env)
    requires Inv(s, start, env) && Enabled(s, a)
    ensures Inv(Step(s, a, env), start, env)
  {
    var s' := Step(s, a, env);
    if a.Crash? {
      CrashKeepsInv(s, start, env);
    } else if a.Rename? && a.ok {
      assert PcOk(a.t, s.pcs[a.t], s, Before(start), env);
      RenameKeepsInv(s, a.t, start, env);
    } else {
      if a.Start? || a.Lock? || a.Load? {
        ArrivalMoves(s, a, start, env);
      } else {
        WritingMoves(s, a, start, env);
      }
      hide Apply, Admitted, Replay, Serial, Inv;
      QuietStep(s, s', a.t, start, env);
    }
  }

  /** A step that moves request t alone, and keeps the log. */
  predicate Moved(s: State, s': State, t: Tid, base: Config, env: Env) {
    && s'.log == s.log && s'.live == s.live && t in s'.pcs && s'.pcs == s.pcs[t := s'.pcs[t]]
    && PcOk(t, s'.pcs[t], s', base, env)
    && (s'.tmp == s.tmp || s.lock == Some(t))
    && (s'.lock == s.lock || s.lock == None || (s.lock == Some(t) && s'.lock == None))
  }

  lemma ArrivalMoves(s: State, a: Action, start: Option<File>, env: Env)
    requires Inv(s, start, env) && Enabled(s, a) && (a.Start? || a.Lock? || a.Load?)
    ensures Moved(s, Step(s, a, env), a.t, Before(start), env)
  {
    LoadSeesReplay(s, start, env);
    hide Apply, Admitted, Replay, EntryOk;
    assert s.log[..|s.log|] == s.log;
    assert a.t in s.pcs ==> PcOk(a.t, s.pcs[a.t], s, Before(start), env);
  }

  lemma WritingMoves(s: State, a: Action, start: Option<File>, env: Env)
    requires Inv(s, start, env) && Enabled(s, a) && (a.Open? || a.Fill? || a.Chmod? || (a.Rename? && !a.ok) || a.Unlock?)
    ensures Moved(s, Step(s, a, env), a.t, Before(start), env)
  {
  }

  // ------------------------------------------------------------------- theorems

  function Initial(start: Option<File>): State {
    State(map[], None, start, None, [])
  }

  lemma {:induction false} RunKeepsInv(s: State, run: seq<Action>, start: Option<File>, env: Env)
    requires Inv(s, start, env) && CanRun(s, run, env)
    ensures Inv(Run(s, run, env), start, env)
    decreases |run|
  {
    hide Inv, Step, Enabled;
    if run != [] {
      StepKeepsInv(s, run[0], start, env);
      RunKeepsInv(Step(s, run[0], env), run[1..], start, env);
    }
  }

  /** At every moment of every interleaving, so also for a reader without the lock and
      after a crash anywhere, the file holds one whole document: the committed updates
      applied one after another, each to a document it could be applied to. After the
      first commit it has the requested mode. */
  lemma FileIsAlwaysAWholeDocument(start: Option<File>, run: seq<Action>, env: Env)
    requires start.Some? ==> start.value.text.Whole?
    requires CanRun(Initial(start), run, env)
    ensures var s := Run(Initial(start), run, env);
      && (s.log == [] ==> s.live == start)
      && (s.log != [] ==> s.live == Some(File(Whole(Replay(Before(start), s.log)), MODE)))
      && forall k :: 0 <= k < |s.log| ==> Apply(Replay(Before(start), s.log[..k]), s.log[k].u).1 == None
  {
    RunKeepsInv(Initial(start), run, start, env);
    var s := Run(Initial(start), run, env);
    hide Apply, Replay, Run, CanRun;
    forall k | 0 <= k < |s.log| ensures Apply(Replay(Before(start), s.log[..k]), s.log[k].u).1 == None {
      assert EntryOk(k, s, Before(start), env);
    }
  }

  /** No lost update, and nothing by half: a request that returned success is committed
      exactly once, one that returned an error not at all, and each behaved as if alone
      at its own place in the order of commits, which lies within its own call. */
  lemma RequestsAreSerial(start: Option<File>, run: seq<Action>, env: Env, t: Tid)
    requires start.Some? ==> start.value.text.Whole?
    requires CanRun(Initial(start), run, env)
    requires t in Run(Initial(start), run, env).pcs && Run(Initial(start), run, env).pcs[t].Returned?
    ensures var s := Run(Initial(start), run, env);
      var pc := s.pcs[t];
      && Serial(t, pc.u, pc.started, pc.seen, pc.result, s.log, Before(start), env)
      && forall k :: 0 <= k < |s.log| ==> (s.log[k].owner == t <==> pc.result == Success && k == pc.seen)
  {
    RunKeepsInv(Initial(start), run, start, env);
    var s := Run(Initial(start), run, env);
    hide Apply, Replay, Run, CanRun, Admitted;
    assert PcOk(t, s.pcs[t], s, Before(start), env);
    forall k | 0 <= k < |s.log| ensures s.log[k].owner == t <==> s.pcs[t].result == Success && k == s.pcs[t].seen {
      assert EntryOk(k, s, Before(start), env);
    }
  }

  lemma {:induction false} ReplayIsSound(c: Config, log: seq<Entry>, env: Env)
    requires Sound(c, env) && forall k :: 0 <= k < |log| ==> Admitted(log[k].u, env)
    ensures Sound(Replay(c, log), env)
  {
    hide Sound, Admitted, Apply;
    if log != [] {
      var before := log[..|log| - 1];
      assert forall k :: 0 <= k < |before| ==> before[k] == log[k];
      ReplayIsSound(c, before, env);
      ApplyKeepsSound(Replay(c, before), log[|log| - 1].u, env);
    }
  }

  /** From a checked file, whatever happens, the file stays one that was checked: host
      ports and shaped hosts are distinct and the private ranges stay blocked. */
  lemma FileStaysSound(start: Option<File>, run: seq<Action>, env: Env)
    requires start.Some? && start.value.text.Whole? && Sound(start.value.text.doc, env)
    requires CanRun(Initial(start), run, env)
    ensures var s := Run(Initial(start), run, env);
      s.live.Some? && s.live.value.text.Whole? && Sound(s.live.value.text.doc, env)
  {
    RunKeepsInv(Initial(start), run, start, env);
    var s := Run(Initial(start), run, env);
    hide Apply, Replay, Run, CanRun, Admitted, Sound;
    forall k | 0 <= k < |s.log| ensures Admitted(s.log[k].u, env) {
      assert EntryOk(k, s, Before(start), env);
    }
    ReplayIsSound(Before(start), s.log, env);
  }
}
