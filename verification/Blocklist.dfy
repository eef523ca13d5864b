/** The builtin blocklist, reconciled by three hashes: what the image ships, the live copy,
    and the manifest's record of what the live copy was last synced to
    (config/dns/dns.default.sh, backend/internal/dns/blocklist.go). */
module Blocklist {
  import opened Options

  type Content = string

  /** SHA-1, taken to be injective. */
  datatype Digest = Sha1(of: Content)

  /** `baseline` is the manifest's entry for the builtin source. */
  datatype State = State(shipped: Content, live: Option<Content>, baseline: Option<Digest>)

  /** How far the DNS program's start got: to the end, not to the manifest, or only to
      emptying it. */
  datatype Reach = Complete | BeforeManifest | ManifestEmptied

  /** An image update; the DNS program's start; the two buttons, with the outcome of each write; and anyone changing
      or removing the live file by hand. */
  datatype Action =
    | Ship(content: Content)
    | Boot(enabled: bool, reach: Reach)
    | Pull(liveOk: bool, manifestOk: bool)
    | Ignore(manifestOk: bool)
    | Edit(copy: Option<Content>)

  datatype Status = Status(updateAvailable: bool, liveDiverged: bool)

  function GetStatus(s: State): Status {
    if s.baseline == None || s.baseline == Some(Sha1(s.shipped)) then Status(false, false)
    else Status(true, s.live.Some? && Some(Sha1(s.live.value)) != s.baseline)
  }

  /** seed_builtin_blocklist copies: nothing is there, or what is there is what was synced. */
  predicate Reseeds(s: State) {
    s.live.None? || s.baseline == Some(Sha1(s.live.value))
  }

  function Recorded(was: Option<Digest>, now: Option<Digest>, reach: Reach): Option<Digest> {
    match reach
    case Complete => now
    case BeforeManifest => was
    case ManifestEmptied => None
  }

  function Step(s: State, a: Action): State {
    match a
    case Ship(c) => s.(shipped := c)
    case Boot(true, reach) =>
      if !Reseeds(s) then s
      else s.(live := Some(s.shipped), baseline := Recorded(s.baseline, Some(Sha1(s.shipped)), reach))
    case Boot(false, reach) => s.(live := None, baseline := Recorded(s.baseline, None, reach))
    case Pull(liveOk, manifestOk) =>
      if !liveOk then s
      else s.(live := Some(s.shipped), baseline := if manifestOk then Some(Sha1(s.shipped)) else s.baseline)
    case Ignore(manifestOk) => if manifestOk then s.(baseline := Some(Sha1(s.shipped))) else s
    case Edit(c) => s.(live := c)
  }

  function After(s: State, run: seq<Action>): State
    decreases |run|
  {
    if run == [] then s else After(Step(s, run[0]), run[1..])
  }

  // ------------------------------------------------------------- on the disk

  /** The three files, and the steps on them. */
  class Builtin {
    var shipped: Content
    var live: Option<Content>
    var baseline: Option<Digest>

    constructor (shipped: Content)
      ensures State(this.shipped, live, baseline) == State(shipped, None, None)
    {
      this.shipped := shipped;
      live := None;
      baseline := None;
    }

    ghost function Now(): State
      reads this
    {
      State(shipped, live, baseline)
    }

    /** The script's start. */
    method DoBoot(enabled: bool, reach: Reach)
      modifies this
      ensures Now() == Step(old(Now()), Boot(enabled, reach))
    {
      if !enabled {
        live := None;
        baseline := Recorded(baseline, None, reach);
        return;
      }
      var prevHash := baseline;
      var desiredHash := Sha1(shipped);
      if live.None? {
        live := Some(shipped);
        baseline := Recorded(baseline, Some(desiredHash), reach);
        return;
      }
      var liveHash := Sha1(live.value);
      if prevHash.Some? && liveHash == prevHash.value {
        live := Some(shipped);
        baseline := Recorded(baseline, Some(desiredHash), reach);
      }
    }

    method BuiltinPull(liveOk: bool, manifestOk: bool) returns (ok: bool)
      modifies this
      ensures Now() == Step(old(Now()), Pull(liveOk, manifestOk)) && ok == (liveOk && manifestOk)
    {
      if !liveOk {
        return false;
      }
      live := Some(shipped);
      ok := BuiltinIgnore(manifestOk);
    }

    method BuiltinIgnore(manifestOk: bool) returns (ok: bool)
      modifies this
      ensures Now() == Step(old(Now()), Ignore(manifestOk)) && ok == manifestOk
    {
      if manifestOk {
        baseline := Some(Sha1(shipped));
      }
      return manifestOk;
    }

    method GetBuiltinStatus() returns (st: Status)
      ensures st == GetStatus(Now())
    {
      var shippedHash := Sha1(shipped);
      if baseline.None? || shippedHash == baseline.value {
        return Status(false, false);
      }
      if live.None? {
        return Status(true, false);
      }
      return Status(true, Sha1(live.value) != baseline.value);
    }
  }

  // ----------------------------------------------------------------- properties

  /** Everything the image has ever shipped. */
  function EverShipped(s: State, run: seq<Action>): set<Content> {
    if run == [] then {s.shipped}
    else EverShipped(s, run[..|run| - 1]) + (if run[|run| - 1].Ship? then {run[|run| - 1].content} else {})
  }

  lemma {:induction false} AfterLast(s: State, run: seq<Action>)
    requires run != []
    ensures After(s, run) == Step(After(s, run[..|run| - 1]), run[|run| - 1])
    decreases |run|
  {
    if |run| > 1 {
      AfterLast(Step(s, run[0]), run[1..]);
      assert run[1..][..|run[1..]| - 1] == run[..|run| - 1][1..];
    }
  }

  /** The manifest holds nothing, or the hash of something that was shipped. */
  lemma {:induction false} ManifestRecordsShippedContent(s: State, run: seq<Action>)
    requires s.baseline == None
    ensures var end := After(s, run);
      && end.shipped in EverShipped(s, run)
      && (end.baseline.Some? ==> end.baseline.value.of in EverShipped(s, run))
  {
    if run != [] {
      AfterLast(s, run);
      ManifestRecordsShippedContent(s, run[..|run| - 1]);
    }
  }

  /** Neither an image update, a start, nor Ignore. */
  predicate TouchesLive(a: Action) {
    a.Pull? || a.Edit? || (a.Boot? && !a.enabled)
  }

  /** A live copy unlike anything ever shipped survives every image update, start and
      Ignore, until someone pulls, edits it, or switches the source off. */
  lemma {:induction false} EditedCopySurvives(s: State, before: seq<Action>, run: seq<Action>)
    requires s.baseline == None
    requires After(s, before).live.Some?
    requires After(s, before).live.value !in EverShipped(s, before + run)
    requires forall i :: 0 <= i < |run| ==> !TouchesLive(run[i])
    ensures After(s, before + run).live == After(s, before).live
    decreases |run|
  {
    if run == [] {
      assert before + run == before;
    } else {
      var n := |run| - 1;
      var all, prefix := before + run, before + run[..n];
      assert all[..|all| - 1] == prefix && all[|all| - 1] == run[n];
      AfterLast(s, all);
      EditedCopySurvives(s, before, run[..n]);
      ManifestRecordsShippedContent(s, prefix);
    }
  }

  predicate InSync(s: State) {
    s.live.Some? && s.baseline == Some(Sha1(s.live.value))
  }

  /** Updates and starts, with the source switched on: nobody touches the copy. */
  predicate HandsOff(run: seq<Action>) {
    forall i :: 0 <= i < |run| ==> run[i].Ship? || (run[i].Boot? && run[i].enabled)
  }

  /** A start cut short does no harm if it replaced the copy by what was there, and did
      not get to the manifest. */
  predicate HarmlessStart(s: State, a: Action) {
    a.Boot? ==> a.reach.Complete? || (a.reach.BeforeManifest? && s.live == Some(s.shipped))
  }

  predicate Harmless(s: State, run: seq<Action>)
    decreases |run|
  {
    run == [] || (HarmlessStart(s, run[0]) && Harmless(Step(s, run[0]), run[1..]))
  }

  /** A copy that has lost its manifest entry is never replaced again. */
  lemma {:induction false} StuckCopyStays(s: State, run: seq<Action>)
    requires s.live.Some? && !InSync(s) && HandsOff(run)
    ensures After(s, run).live == s.live && !InSync(After(s, run))
    decreases |run|
  {
    if run != [] {
      assert forall i :: 0 <= i < |run| - 1 ==> run[1..][i] == run[i + 1];
      StuckCopyStays(Step(s, run[0]), run[1..]);
    }
  }

  /** Of a copy nobody touched, the manifest keeps track exactly if no start was cut short
      in a harmful way. */
  lemma {:induction false} UntouchedCopyStaysInSync(s: State, run: seq<Action>)
    requires InSync(s) && HandsOff(run)
    ensures InSync(After(s, run)) <==> Harmless(s, run)
    decreases |run|
  {
    if run != [] {
      var s1, rest := Step(s, run[0]), run[1..];
      assert forall i :: 0 <= i < |run| - 1 ==> rest[i] == run[i + 1];
      if HarmlessStart(s, run[0]) {
        UntouchedCopyStaysInSync(s1, rest);
      } else {
        StuckCopyStays(s1, rest);
      }
    }
  }

  /** After a finished start, a copy nobody touched is what is shipped now, exactly if no
      earlier start was cut short in a harmful way, or the copy that got stuck then
      happens to be shipped again. */
  lemma UntouchedCopyFollows(s: State, run: seq<Action>)
    requires InSync(s) && HandsOff(run)
    ensures var before := After(s, run);
      var end := After(s, run + [Boot(true, Complete)]);
      end.live == Some(end.shipped) <==> Harmless(s, run) || before.live == Some(before.shipped)
  {
    var all := run + [Boot(true, Complete)];
    assert all[..|all| - 1] == run;
    AfterLast(s, all);
    UntouchedCopyStaysInSync(s, run);
    UntouchedCopyIsThere(s, run);
  }

  lemma {:induction false} UntouchedCopyIsThere(s: State, run: seq<Action>)
    requires s.live.Some? && HandsOff(run)
    ensures After(s, run).live.Some?
    decreases |run|
  {
    if run != [] {
      assert forall i :: 0 <= i < |run| - 1 ==> run[1..][i] == run[i + 1];
      UntouchedCopyIsThere(Step(s, run[0]), run[1..]);
    }
  }

  /** It does happen: a start killed between the copy and the manifest leaves a copy
      nobody touched behind for good. */
  lemma CutStartStrandsTheCopy()
    ensures var s := State("A", Some("A"), Some(Sha1("A")));
      var run := [Ship("B"), Boot(true, BeforeManifest), Ship("C"), Boot(true, Complete)];
      InSync(s) && After(s, run) == State("C", Some("B"), Some(Sha1("A")))
  {
    var s := State("A", Some("A"), Some(Sha1("A")));
    var last := [Boot(true, Complete)];
    var third := [Ship("C")] + last;
    var second := [Boot(true, BeforeManifest)] + third;
    var run := [Ship("B")] + second;
    assert run == [Ship("B"), Boot(true, BeforeManifest), Ship("C"), Boot(true, Complete)];
    assert run[1..] == second && second[1..] == third && third[1..] == last && last[1..] == [];
    var s1 := Step(s, Ship("B"));
    var s2 := Step(s1, Boot(true, BeforeManifest));
    var s3 := Step(s2, Ship("C"));
    assert After(s3, last) == Step(s3, last[0]);
    assert After(s2, third) == After(s3, last);
    assert After(s1, second) == After(s2, third);
  }

  /** An update on offer means the live copy has diverged. */
  predicate OfferMeansDiverged(s: State) {
    GetStatus(s).updateAvailable ==> GetStatus(s).liveDiverged
  }

  /** The manifest names content that is no longer shipped. */
  predicate Pending(s: State) {
    s.baseline.Some? && s.baseline != Some(Sha1(s.shipped))
  }

  /** Ends with the source switched off by a script killed before it got to the manifest,
      while the manifest named content no longer shipped; after that, at most attempts
      that failed. */
  predicate LeftHanging(s: State, run: seq<Action>) {
    run != [] &&
    var before, last := run[..|run| - 1], run[|run| - 1];
    match last
    case Boot(false, BeforeManifest) => Pending(After(s, before))
    case Pull(false, _) => LeftHanging(s, before)
    case Ignore(false) => LeftHanging(s, before)
    case _ => false
  }

  lemma {:induction false} AfterAnyStart(s: State, run: seq<Action>)
    requires run != [] && run[0].Boot?
    requires forall i :: 0 <= i < |run| ==> !run[i].Ship? && !run[i].Edit?
    ensures var end := After(s, run);
      && (Pending(end) && end.live.Some? ==> end.baseline != Some(Sha1(end.live.value)))
      && (Pending(end) && end.live.None? <==> LeftHanging(s, run))
  {
    AfterLast(s, run);
    var before := run[..|run| - 1];
    if |run| == 1 {
      assert After(s, before) == s;
    } else {
      AfterAnyStart(s, before);
    }
  }

  /** From any start of the program on, while nothing new is shipped and nobody edits the
      file, an update is on offer only over a copy that has diverged, exactly unless the
      switch-off was left hanging. */
  lemma OfferImpliesDiverged(s: State, run: seq<Action>)
    requires run != [] && run[0].Boot?
    requires forall i :: 0 <= i < |run| ==> !run[i].Ship? && !run[i].Edit?
    ensures OfferMeansDiverged(After(s, run)) <==> !LeftHanging(s, run)
  {
    AfterAnyStart(s, run);
  }

  /** It does happen: an offer without a copy that could have diverged. */
  lemma CutSwitchOffLeavesAnOffer()
    ensures var s := State("B", Some("C"), Some(Sha1("A")));
      GetStatus(After(s, [Boot(true, Complete), Boot(false, BeforeManifest)])) == Status(true, false)
  {
    var s := State("B", Some("C"), Some(Sha1("A")));
    var last := [Boot(false, BeforeManifest)];
    var run := [Boot(true, Complete)] + last;
    assert run == [Boot(true, Complete), Boot(false, BeforeManifest)];
    assert run[1..] == last && last[1..] == [];
    var s1 := Step(s, Boot(true, Complete));
    assert After(s1, last) == Step(s1, last[0]);
  }

  /** After a pull or an Ignore that succeeded, nothing is on offer until something new is
      shipped, whatever else happens. */
  lemma {:induction false} NoOfferUntilShipped(s: State, run: seq<Action>)
    requires s.baseline == None || s.baseline == Some(Sha1(s.shipped))
    requires forall i :: 0 <= i < |run| ==> !run[i].Ship?
    ensures !GetStatus(After(s, run)).updateAvailable
    decreases |run|
  {
    if run != [] {
      NoOfferUntilShipped(Step(s, run[0]), run[1..]);
    }
  }

  lemma DecisionSticks(s: State, decision: Action, run: seq<Action>)
    requires decision == Pull(true, true) || decision == Ignore(true)
    requires forall i :: 0 <= i < |run| ==> !run[i].Ship?
    ensures !GetStatus(After(s, [decision] + run)).updateAvailable
  {
    assert ([decision] + run)[1..] == run;
    NoOfferUntilShipped(Step(s, decision), run);
  }
}
