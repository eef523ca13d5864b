/** What the two buttons, the seed step and the switch-off bring about, after any history
    of the builtin blocklist, and when an update is on offer. */
module BlocklistRecovery {
  import opened Options
  import opened Blocklist

  /** The content of the last image update, or that of the start. */
  function NowShipped(first: Content, run: seq<Action>): Content {
    if run == [] then first
    else if run[|run| - 1].Ship? then run[|run| - 1].content
    else NowShipped(first, run[..|run| - 1])
  }

  lemma {:induction false} ShippedIsLast(s: State, run: seq<Action>)
    ensures After(s, run).shipped == NowShipped(s.shipped, run)
  {
    if run != [] {
      AfterLast(s, run);
      ShippedIsLast(s, run[..|run| - 1]);
    }
  }

  lemma AfterOne(s: State, run: seq<Action>, a: Action)
    ensures After(s, run + [a]) == Step(After(s, run), a)
  {
    assert (run + [a])[..|run|] == run;
    AfterLast(s, run + [a]);
  }

  /** Whatever the copy was, and whatever the manifest said: a pull whose first write
      succeeds makes it what is shipped now, and one that succeeds leaves it in step and
      nothing on offer. A pull whose first write fails changes nothing. */
  lemma PullReplaces(s: State, run: seq<Action>, manifestOk: bool)
    ensures var was, end := After(s, run), After(s, run + [Pull(true, manifestOk)]);
      && end.live == Some(NowShipped(s.shipped, run)) && end.shipped == NowShipped(s.shipped, run)
      && (manifestOk ==> InSync(end) && GetStatus(end) == Status(false, false))
      && (!manifestOk ==> end.baseline == was.baseline)
      && After(s, run + [Pull(false, manifestOk)]) == was
  {
    ShippedIsLast(s, run);
    AfterOne(s, run, Pull(true, manifestOk));
    AfterOne(s, run, Pull(false, manifestOk));
  }

  /** A missing copy is seeded by the next start that gets to its end, and a start with
      the source switched off removes it, so that switching the source off and on again
      gives the shipped content in place of any copy, also of a stuck one. */
  lemma MissingCopyIsSeeded(s: State, run: seq<Action>, off: Reach)
    ensures var was := After(s, run);
      var end := After(s, run + [Boot(true, Complete)]);
      was.live == None ==> end.live == Some(NowShipped(s.shipped, run)) && InSync(end)
    ensures var dark := After(s, run + [Boot(false, off)]);
      dark.live == None && (off == Complete ==> dark.baseline == None && GetStatus(dark) == Status(false, false))
    ensures var end := After(s, run + [Boot(false, off), Boot(true, Complete)]);
      end.live == Some(NowShipped(s.shipped, run)) && InSync(end)
  {
    ShippedIsLast(s, run);
    AfterOne(s, run, Boot(true, Complete));
    AfterOne(s, run, Boot(false, off));
    AfterOne(s, run + [Boot(false, off)], Boot(true, Complete));
    assert run + [Boot(false, off)] + [Boot(true, Complete)] == run + [Boot(false, off), Boot(true, Complete)];
  }

  /** Recovery: a copy, however it got stuck or edited, is in step after a pull for as long
      as no later start is cut short in a harmful way, and follows the shipped content
      exactly if no later start was cut short in a harmful way, or what it
      then got stuck with is shipped again. */
  lemma PullRecovers(s: State, run: seq<Action>, later: seq<Action>)
    requires HandsOff(later)
    ensures var pulled := After(s, run + [Pull(true, true)]);
      var before, end := After(pulled, later), After(pulled, later + [Boot(true, Complete)]);
      && (InSync(before) <==> Harmless(pulled, later))
      && (end.live == Some(NowShipped(pulled.shipped, later)) <==>
            Harmless(pulled, later) || before.live == Some(NowShipped(pulled.shipped, later)))
      && (Harmless(pulled, later) ==> GetStatus(end) == Status(false, false))
  {
    PullReplaces(s, run, true);
    var pulled := After(s, run + [Pull(true, true)]);
    hide InSync, Harmless, GetStatus;
    UntouchedCopyFollows(pulled, later);
    ShippedIsLast(pulled, later);
    ShippedIsLast(pulled, later + [Boot(true, Complete)]);
    AfterOne(pulled, later, Boot(true, Complete));
    UntouchedCopyStaysInSync(pulled, later);
    if Harmless(pulled, later) {
      FinishedStartSettles(After(pulled, later));
    }
  }

  lemma FinishedStartSettles(s: State)
    requires InSync(s)
    ensures GetStatus(Step(s, Boot(true, Complete))) == Status(false, false)
  {
  }

  /** Ignore leaves the copy alone, and records what is shipped if the manifest can be
      written. */
  lemma IgnoreKeepsTheCopy(s: State, run: seq<Action>, manifestOk: bool)
    ensures var was, end := After(s, run), After(s, run + [Ignore(manifestOk)]);
      && end.live == was.live
      && end.baseline == if manifestOk then Some(Sha1(NowShipped(s.shipped, run))) else was.baseline
  {
    ShippedIsLast(s, run);
    AfterOne(s, run, Ignore(manifestOk));
  }

  /** Updates, starts, further edits away from `base`, and attempts that fail. */
  predicate LeavesEdited(a: Action, base: Content) {
    match a
    case Ship(_) => true
    case Boot(enabled, _) => enabled
    case Pull(liveOk, _) => !liveOk
    case Ignore(manifestOk) => !manifestOk
    case Edit(copy) => copy.Some? && copy.value != base
  }

  /** Over an edited copy an update is on offer exactly while something other than what
      it was last synced to is shipped, and it is then shown as diverged. */
  lemma {:induction false} OfferedExactly(s: State, run: seq<Action>, base: Content)
    requires s.baseline == Some(Sha1(base)) && s.live.Some? && s.live.value != base
    requires forall i :: 0 <= i < |run| ==> LeavesEdited(run[i], base)
    ensures var end, news := After(s, run), NowShipped(s.shipped, run) != base;
      GetStatus(end) == Status(news, news) && end.live.Some? && end.live.value != base
  {
    EditedStays(s, run, base);
    ShippedIsLast(s, run);
  }

  lemma {:induction false} EditedStays(s: State, run: seq<Action>, base: Content)
    requires s.baseline == Some(Sha1(base)) && s.live.Some? && s.live.value != base
    requires forall i :: 0 <= i < |run| ==> LeavesEdited(run[i], base)
    ensures var end := After(s, run); end.baseline == s.baseline && end.live.Some? && end.live.value != base
    decreases |run|
  {
    if run != [] {
      EditedStays(Step(s, run[0]), run[1..], base);
    }
  }

  /** Ignoring an update holds for that content alone: after any history, over a copy
      unlike the content ignored, the offer is back exactly while other content is shipped. */
  lemma IgnoredUntilNews(s: State, run: seq<Action>, later: seq<Action>)
    requires var was := After(s, run); was.live.Some? && was.live.value != NowShipped(s.shipped, run)
    requires forall i :: 0 <= i < |later| ==> LeavesEdited(later[i], NowShipped(s.shipped, run))
    ensures var ignored := NowShipped(s.shipped, run);
      var news := NowShipped(ignored, later) != ignored;
      GetStatus(After(After(s, run + [Ignore(true)]), later)) == Status(news, news)
  {
    IgnoreKeepsTheCopy(s, run, true);
    AfterOne(s, run, Ignore(true));
    ShippedIsLast(s, run);
    OfferedExactly(Step(After(s, run), Ignore(true)), later, NowShipped(s.shipped, run));
  }
}
