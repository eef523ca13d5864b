/** What the netgate updates change, part by part: one call on the file, and any run of
    concurrent ones. */
module LiveConfigEffects {
  import opened Options
  import opened Backstop
  import opened LiveConfig
  import opened LiveConfigRuns

  predicate Taken(forwards: seq<Forward>, hostPort: int) {
    exists k :: 0 <= k < |forwards| && forwards[k].hostPort == hostPort
  }

  lemma TakenIsForwards(forwards: seq<Forward>, hostPort: int)
    ensures Taken(forwards, hostPort) <==> Forwards(forwards, hostPort)
  {
    if f :| f in forwards && f.hostPort == hostPort {
      var k :| 0 <= k < |forwards| && forwards[k] == f;
    }
  }

  /** One update done: what the new document says, and that the rest is as it was. */
  ghost predicate Done(c: Config, c': Config, u: Update) {
    match u
    case ReplaceOutbound(rules) => c'.outbound == rules && c'.forwards == c.forwards && c'.bandwidth == c.bandwidth
    case SetBandwidth(bw) => c'.bandwidth == bw && c'.outbound == c.outbound && c'.forwards == c.forwards
    case AddForward(f) =>
      && c'.forwards == c.forwards + [f] && !Taken(c.forwards, f.hostPort)
      && c'.outbound == c.outbound && c'.bandwidth == c.bandwidth
    case DeleteForward(p) =>
      && Taken(c.forwards, p) && !Taken(c'.forwards, p)
      && (forall f :: f in c'.forwards <==> f in c.forwards && f.hostPort != p)
      && c'.outbound == c.outbound && c'.bandwidth == c.bandwidth
  }

  /** What the document loaded may refuse an update for. */
  function Objection(c: Config, u: Update): Option<Error> {
    if u.AddForward? && Taken(c.forwards, u.f.hostPort) then Some(Exists)
    else if u.DeleteForward? && !Taken(c.forwards, u.hostPort) then Some(NotFound)
    else None
  }

  lemma ApplyDoes(c: Config, u: Update)
    ensures Apply(c, u).1 == Objection(c, u)
    ensures if Apply(c, u).1.Some? then Apply(c, u).0 == c else Done(c, Apply(c, u).0, u)
  {
    match u
    case DeleteForward(p) =>
      TakenIsForwards(c.forwards, p);
      UnforwardedMembers(c.forwards, p);
    case AddForward(f) => TakenIsForwards(c.forwards, f.hostPort);
    case _ =>
  }

  /** One call on the file. It succeeds exactly if the request is valid, the document has
      no objection (the host port of a new forward taken, that of a deleted one not) and
      the file can be written; then the update is done, part by part. An error is the
      reason, checked in this order, and leaves the file alone. */
  lemma CallDoesExactly(doc: Option<Config>, u: Update, env: Env, saveOk: bool)
    ensures var (after, err) := Perform(doc, u, env, saveOk);
      && err == (if !Admitted(u, env) then Some(Validation)
                 else if Objection(Loaded(doc), u).Some? then Objection(Loaded(doc), u)
                 else if !saveOk then Some(IoFailed)
                 else None)
      && (err.Some? ==> after == doc)
      && (err.None? ==> after.Some? && Done(Loaded(doc), after.value, u))
  {
    ApplyDoes(Loaded(doc), u);
    hide Admitted, Apply, Done;
  }

  /** Of distinct host ports a deletion takes out the one entry, the others in their order. */
  lemma {:induction false} DeletionTakesOne(forwards: seq<Forward>, i: nat)
    requires DistinctPorts(forwards) && i < |forwards|
    ensures Unforwarded(forwards, forwards[i].hostPort) == forwards[..i] + forwards[i + 1..]
  {
    var p, rest := forwards[i].hostPort, forwards[1..];
    assert forall k :: 0 <= k < |rest| ==> rest[k] == forwards[k + 1];
    if i == 0 {
      forall f | f in rest ensures f.hostPort != p {
        var k :| 0 <= k < |rest| && rest[k] == f;
        assert forwards[k + 1] == f;
      }
      UnforwardedSame(rest, p);
      assert forwards[..0] + forwards[1..] == rest;
    } else {
      DeletionTakesOne(rest, i - 1);
      assert [forwards[0]] + (rest[..i - 1] + rest[i..]) == forwards[..i] + forwards[i + 1..];
    }
  }

  // ----------------------------------------------------------------- over runs

  /** The last ReplaceOutbound of the log is the one at k. */
  predicate LastOutbound(log: seq<Entry>, k: int) {
    0 <= k < |log| && log[k].u.ReplaceOutbound? && forall j :: k < j < |log| ==> !log[j].u.ReplaceOutbound?
  }

  predicate LastBandwidth(log: seq<Entry>, k: int) {
    0 <= k < |log| && log[k].u.SetBandwidth? && forall j :: k < j < |log| ==> !log[j].u.SetBandwidth?
  }

  predicate DeletedFrom(log: seq<Entry>, k: nat, hostPort: int) {
    exists j :: k <= j < |log| && log[j].u == DeleteForward(hostPort)
  }

  /** Added at k of the log, and its host port not deleted since. */
  predicate AddedAt(log: seq<Entry>, f: Forward, k: int) {
    0 <= k < |log| && log[k].u == AddForward(f) && !DeletedFrom(log, k, f.hostPort)
  }

  ghost predicate Standing(base: Config, log: seq<Entry>, f: Forward) {
    (f in base.forwards && !DeletedFrom(log, 0, f.hostPort)) || exists k :: AddedAt(log, f, k)
  }

  ghost predicate OutboundIsLast(base: Config, log: seq<Entry>, c: Config) {
    if exists k :: LastOutbound(log, k) then exists k :: LastOutbound(log, k) && c.outbound == log[k].u.rules
    else c.outbound == base.outbound
  }

  ghost predicate BandwidthIsLast(base: Config, log: seq<Entry>, c: Config) {
    if exists k :: LastBandwidth(log, k) then exists k :: LastBandwidth(log, k) && c.bandwidth == log[k].u.bw
    else c.bandwidth == base.bandwidth
  }

  ghost predicate ForwardsStand(base: Config, log: seq<Entry>, c: Config) {
    forall f :: f in c.forwards <==> Standing(base, log, f)
  }

  lemma OutboundGoesOn(base: Config, log: seq<Entry>, e: Entry, c: Config, c': Config)
    requires OutboundIsLast(base, log, c) && Done(c, c', e.u)
    ensures OutboundIsLast(base, log + [e], c')
  {
    var longer := log + [e];
    if e.u.ReplaceOutbound? {
      assert LastOutbound(longer, |log|);
    } else {
      forall k ensures LastOutbound(longer, k) <==> LastOutbound(log, k) {
        if LastOutbound(longer, k) {
          assert forall j :: k < j < |log| ==> log[j] == longer[j];
        }
      }
    }
  }

  lemma BandwidthGoesOn(base: Config, log: seq<Entry>, e: Entry, c: Config, c': Config)
    requires BandwidthIsLast(base, log, c) && Done(c, c', e.u)
    ensures BandwidthIsLast(base, log + [e], c')
  {
    var longer := log + [e];
    if e.u.SetBandwidth? {
      assert LastBandwidth(longer, |log|);
    } else {
      forall k ensures LastBandwidth(longer, k) <==> LastBandwidth(log, k) {
        if LastBandwidth(longer, k) {
          assert forall j :: k < j < |log| ==> log[j] == longer[j];
        }
      }
    }
  }

  lemma DeletedGoesOn(log: seq<Entry>, e: Entry, k: nat, p: int)
    requires k <= |log|
    ensures DeletedFrom(log + [e], k, p) <==> DeletedFrom(log, k, p) || e.u == DeleteForward(p)
  {
    var longer := log + [e];
    if j :| k <= j < |log| && log[j].u == DeleteForward(p) {
      assert longer[j].u == DeleteForward(p);
    }
    assert longer[|log|] == e;
  }

  lemma StandingGoesOn(base: Config, log: seq<Entry>, e: Entry, f: Forward)
    ensures Standing(base, log + [e], f) <==> e.u == AddForward(f) || (Standing(base, log, f) && e.u != DeleteForward(f.hostPort))
  {
    hide DeletedFrom;
    var longer, p := log + [e], f.hostPort;
    DeletedGoesOn(log, e, 0, p);
    forall k: nat | k < |log| ensures AddedAt(longer, f, k) <==> AddedAt(log, f, k) && e.u != DeleteForward(p) {
      DeletedGoesOn(log, e, k, p);
    }
    DeletedGoesOn(log, e, |log|, p);
    NothingDeletedAfter(log, p);
    assert AddedAt(longer, f, |log|) <==> e.u == AddForward(f);
  }

  lemma NothingDeletedAfter(log: seq<Entry>, p: int)
    ensures !DeletedFrom(log, |log|, p)
  {
  }

  lemma ForwardsGoOn(base: Config, log: seq<Entry>, e: Entry, c: Config, c': Config)
    requires ForwardsStand(base, log, c) && Done(c, c', e.u)
    ensures ForwardsStand(base, log + [e], c')
  {
    hide Standing, Taken;
    forall f ensures f in c'.forwards <==> Standing(base, log + [e], f) {
      StandingGoesOn(base, log, e, f);
      assert f in c.forwards <==> Standing(base, log, f);
    }
  }

  predicate AllWentThrough(base: Config, log: seq<Entry>) {
    forall k :: 0 <= k < |log| ==> Apply(Replay(base, log[..k]), log[k].u).1 == None
  }

  lemma {:induction false} ReplayInParts(base: Config, log: seq<Entry>)
    requires AllWentThrough(base, log)
    ensures var c := Replay(base, log);
      OutboundIsLast(base, log, c) && BandwidthIsLast(base, log, c) && ForwardsStand(base, log, c)
  {
    hide Apply, OutboundIsLast, BandwidthIsLast, ForwardsStand, Done;
    if log == [] {
      NothingYet(base, log);
    } else {
      var n, e := |log| - 1, log[|log| - 1];
      var shorter := log[..n];
      assert shorter + [e] == log;
      forall k | 0 <= k < n ensures Apply(Replay(base, shorter[..k]), shorter[k].u).1 == None {
        assert shorter[..k] == log[..k];
      }
      ReplayInParts(base, shorter);
      var c := Replay(base, shorter);
      ApplyDoes(c, e.u);
      OutboundGoesOn(base, shorter, e, c, Replay(base, log));
      BandwidthGoesOn(base, shorter, e, c, Replay(base, log));
      ForwardsGoOn(base, shorter, e, c, Replay(base, log));
    }
  }

  lemma NothingYet(base: Config, log: seq<Entry>)
    requires log == []
    ensures OutboundIsLast(base, log, base) && BandwidthIsLast(base, log, base) && ForwardsStand(base, log, base)
  {
  }

  /** In every interleaving, with failures and crashes anywhere, the file's outbound list
      is that of the last committed ReplaceOutbound, its bandwidth document that of the
      last committed SetBandwidth, or else those of the starting file, and its forwards
      are those added, or there at the start, and not deleted since. */
  lemma EachPartIsItsLastWrite(start: Option<File>, run: seq<Action>, env: Env)
    requires start.Some? ==> start.value.text.Whole?
    requires CanRun(Initial(start), run, env)
    ensures var s := Run(Initial(start), run, env);
      var c, base := Before(s.live), Before(start);
      OutboundIsLast(base, s.log, c) && BandwidthIsLast(base, s.log, c) && ForwardsStand(base, s.log, c)
  {
    FileIsAlwaysAWholeDocument(start, run, env);
    var s := Run(Initial(start), run, env);
    hide Run, CanRun, Apply, OutboundIsLast, BandwidthIsLast, ForwardsStand;
    ReplayInParts(Before(start), s.log);
  }

  // ------------------------------------------------------------------ progress

  /** The outside answers to request t in this action. */
  predicate Obliges(a: Action, t: Tid) {
    match a
    case Load(o, ok) => o == t ==> ok
    case Open(o, ok, _) => o == t ==> ok
    case Fill(o, ok) => o == t ==> ok
    case Chmod(o, ok) => o == t ==> ok
    case Rename(o, ok) => o == t ==> ok
    case _ => true
  }

  predicate Untroubled(s: State, t: Tid) {
    t in s.pcs ==> match s.pcs[t]
                   case Leaving(_, _, _, result) => result != Failed
                   case Returned(_, _, _, result) => result != Failed
                   case _ => true
  }

  lemma StepStaysUntroubled(s: State, a: Action, start: Option<File>, env: Env, t: Tid)
    requires Inv(s, start, env) && Enabled(s, a) && Untroubled(s, t) && Obliges(a, t)
    ensures Untroubled(Step(s, a, env), t)
  {
    LoadSeesReplay(s, start, env);
    assert t in s.pcs && InWrite(s.pcs[t]) ==> PcOk(t, s.pcs[t], s, Before(start), env);
    hide Inv, Apply, Admitted, Replay, Serial;
  }

  lemma {:induction false} RunStaysUntroubled(s: State, run: seq<Action>, start: Option<File>, env: Env, t: Tid)
    requires Inv(s, start, env) && CanRun(s, run, env) && Untroubled(s, t)
    requires forall a :: a in run ==> Obliges(a, t)
    ensures Untroubled(Run(s, run, env), t)
    decreases |run|
  {
    hide Inv, Step, Enabled, Untroubled, Obliges;
    if run != [] {
      StepStaysUntroubled(s, run[0], start, env, t);
      StepKeepsInv(s, run[0], start, env);
      RunStaysUntroubled(Step(s, run[0], env), run[1..], start, env, t);
    }
  }

  /** In company too, a request fails only by a failure of its own: with every one of its
      file operations answered well it returned success, or was refused for the reason
      the document gave at its place in the order. */
  lemma OnlyOwnFailuresFail(start: Option<File>, run: seq<Action>, env: Env, t: Tid)
    requires start.Some? ==> start.value.text.Whole?
    requires CanRun(Initial(start), run, env) && forall a :: a in run ==> Obliges(a, t)
    requires t in Run(Initial(start), run, env).pcs && Run(Initial(start), run, env).pcs[t].Returned?
    ensures var s := Run(Initial(start), run, env);
      var pc := s.pcs[t];
      && pc.seen <= |s.log|
      && pc.result == (if !Admitted(pc.u, env) then Refused(Validation)
                       else match Objection(Replay(Before(start), s.log[..pc.seen]), pc.u) {
                         case Some(e) => Refused(e)
                         case None => Success
                       })
  {
    RunStaysUntroubled(Initial(start), run, start, env, t);
    RunKeepsInv(Initial(start), run, start, env);
    var s := Run(Initial(start), run, env);
    var pc := s.pcs[t];
    hide Run, CanRun, Apply, Replay, Admitted, Objection;
    assert PcOk(t, pc, s, Before(start), env);
    ApplyDoes(Replay(Before(start), s.log[..pc.seen]), pc.u);
    if pc.result == Success {
      assert EntryOk(pc.seen, s, Before(start), env);
    }
  }

  predicate HolderAtWork(s: State) {
    s.lock.Some? ==> s.lock.value in s.pcs && Critical(s.pcs[s.lock.value])
  }

  lemma StepKeepsHolder(s: State, a: Action, start: Option<File>, env: Env)
    requires Inv(s, start, env) && HolderAtWork(s) && Enabled(s, a)
    ensures HolderAtWork(Step(s, a, env))
  {
    assert !a.Start? && !a.Crash? && a.t in s.pcs ==> PcOk(a.t, s.pcs[a.t], s, Before(start), env);
    hide Inv, Apply, Admitted, WriterOk, Serial;
  }

  lemma {:induction false} RunKeepsHolder(s: State, run: seq<Action>, start: Option<File>, env: Env)
    requires Inv(s, start, env) && HolderAtWork(s) && CanRun(s, run, env)
    ensures HolderAtWork(Run(s, run, env))
    decreases |run|
  {
    hide Inv, Step, Enabled, HolderAtWork;
    if run != [] {
      StepKeepsHolder(s, run[0], start, env);
      StepKeepsInv(s, run[0], start, env);
      RunKeepsHolder(Step(s, run[0], env), run[1..], start, env);
    }
  }

  predicate Underway(pc: Pc) {
    !pc.Returned? && !pc.Dead?
  }

  /** What an open request does next, every answer being good. */
  function Next(t: Tid, pc: Pc): Action
    requires Underway(pc)
  {
    match pc
    case Waiting(_, _) => Lock(t)
    case Locked(_, _) => Load(t, true)
    case Ready(_, _, _, _) => Open(t, true, MODE)
    case Opened(_, _, _, _) => Fill(t, true)
    case Filled(_, _, _, _) => Chmod(t, true)
    case Moded(_, _, _, _) => Rename(t, true)
    case Leaving(_, _, _, _) => Unlock(t)
  }

  function Rank(pc: Pc): nat {
    match pc
    case Waiting(_, _) => 7
    case Locked(_, _) => 6
    case Ready(_, _, _, _) => 5
    case Opened(_, _, _, _) => 4
    case Filled(_, _, _, _) => 3
    case Moded(_, _, _, _) => 2
    case Leaving(_, _, _, _) => 1
    case _ => 0
  }

  /** There is no deadlock: a request is held up by the mutex alone, whose holder can move;
      and every move of a request brings it nearer to its return. */
  lemma OnlyTheMutexDelays(start: Option<File>, run: seq<Action>, env: Env, t: Tid)
    requires start.Some? ==> start.value.text.Whole?
    requires CanRun(Initial(start), run, env)
    requires t in Run(Initial(start), run, env).pcs && Underway(Run(Initial(start), run, env).pcs[t])
    ensures var s := Run(Initial(start), run, env);
      if Enabled(s, Next(t, s.pcs[t])) then
        var s' := Step(s, Next(t, s.pcs[t]), env); t in s'.pcs && Rank(s'.pcs[t]) < Rank(s.pcs[t])
      else
        && s.pcs[t].Waiting? && s.lock.Some? && s.lock.value in s.pcs && Underway(s.pcs[s.lock.value])
        && Enabled(s, Next(s.lock.value, s.pcs[s.lock.value]))
  {
    RunKeepsInv(Initial(start), run, start, env);
    RunKeepsHolder(Initial(start), run, start, env);
    hide Run, CanRun, Apply, Inv;
  }
}
