/** The registry and the App Routes stay in lockstep, whatever `caddy adapt` and
    `caddy reload` answer, and nobody else's fragment is ever touched. */
module VncTheorems {
  import opened Options
  import opened FragmentDir
  import opened Validate
  import opened Text
  import opened AppRoutes
  import opened Vnc
  import AppRoutesTheorems

  ghost predicate Held(ts: seq<Target>, name: string) {
    exists t :: t in ts && t.name == name && UsesAppRoute(t)
  }

  predicate Distinct(ts: seq<Target>) {
    forall i, j :: 0 <= i < j < |ts| ==> ts[i].name != ts[j].name
  }

  predicate FragmentMatches(files: Files, t: Target) {
    t.name in files ==> AppRoutes.Parse(t.name, files[t.name]) == Some(AppOf(t))
  }

  /** Names are distinct; the fragment of each App-Route-backed target parses back to
      exactly that target or is absent; and every other fragment is one that was there
      before any target (`foreign`), unchanged: no orphans. */
  ghost predicate Lockstep(s: Store, foreign: Files, guard: Guard) {
    && Distinct(s.targets)
    && (forall t :: t in s.targets ==> ValidTarget(t, guard))
    && (forall t :: t in s.targets && UsesAppRoute(t) ==> t.name !in foreign && FragmentMatches(s.files, t))
    && (forall n :: !Held(s.targets, n) ==> Lookup(s.files, n) == Lookup(foreign, n))
  }

  /** File operations succeed; `caddy adapt` and `caddy reload` may do anything. */
  predicate Quiet(o: Outcomes) {
    o.statOldOk && o.statNewOk && o.readOk && o.mkdirOk && o.write.Wrote? && o.restore.Wrote? && o.removeOk
  }

  predicate QuietCall(o: CallOutcomes) {
    Quiet(o.first) && Quiet(o.second)
  }

  // ------------------------------------------------------------------ sorting

  lemma {:induction false} InsertKeeps(t: Target, ts: seq<Target>)
    ensures forall x :: x in Insert(t, ts) <==> x == t || x in ts
    ensures Distinct(ts) && (forall x :: x in ts ==> x.name != t.name) ==> Distinct(Insert(t, ts))
  {
    if ts != [] {
      assert ts == [ts[0]] + ts[1..];
      InsertKeeps(t, ts[1..]);
      var r := Insert(t, ts[1..]);
      if Distinct(ts) && (forall x :: x in ts ==> x.name != t.name) {
        assert forall x :: x in r ==> x.name != ts[0].name;
      }
    }
  }

  lemma {:induction false} SortedKeeps(ts: seq<Target>)
    ensures forall x :: x in Sorted(ts) <==> x in ts
    ensures Distinct(ts) ==> Distinct(Sorted(ts))
  {
    if ts != [] {
      var n := |ts| - 1;
      assert ts == ts[..n] + [ts[n]];
      SortedKeeps(ts[..n]);
      InsertKeeps(ts[n], Sorted(ts[..n]));
    }
  }

  // ------------------------------------------------- what App Routes operations do

  lemma RenderedMatches(t: Target, guard: Guard)
    requires ValidTarget(t, guard)
    ensures AppRoutes.Parse(t.name, Rendered(AppOf(t))) == Some(AppOf(t))
  {
    AppRoutesTheorems.PrintThenParse(AppOf(t));
  }

  lemma CreateRouteEffect(files: Files, t: Target, guard: Guard, o: Outcomes)
    requires ValidTarget(t, guard)
    ensures var e := CreateRoute(files, t, guard, o);
      && (!Stops(e.error) ==> Final(files, e) == files[t.name := Rendered(AppOf(t))])
      && (!Stops(e.error) && o.statNewOk ==> t.name !in files)
      && (Stops(e.error) && Quiet(o) ==> Final(files, e) == files)
  {
    PutEqual(files, t.name, Lookup(files, t.name));
    hide Rendered;
  }

  lemma DeleteRouteEffect(files: Files, name: string, o: Outcomes)
    requires ValidName(name)
    ensures var e := FragmentDir.Delete(files, name, true, o);
      && (!Stops(e.error) || e.error == Some(NotFound) ==>
            Final(files, e) == if o.statOldOk then files - {name} else files)
      && (Quiet(o) ==> Final(files, e) == files - {name})
  {
    if name !in files {
      assert files - {name} == files;
    }
  }

  /** Where Update leaves the directory once the route is dealt with. */
  function Kept(files: Files, stored: Target): Files {
    if UsesAppRoute(stored) then files - {stored.name} else files
  }

  lemma KeepRouteEffect(files: Files, stored: Target, t: Target, guard: Guard, o: CallOutcomes)
    requires ValidTarget(t, guard) && ValidName(stored.name) && QuietCall(o)
    requires UsesAppRoute(stored) && UsesAppRoute(t) && stored.name in files
    ensures var e := BringRouteAlong(files, stored, t, guard, o);
      && (!Stops(e.error) ==> (t.name !in files || t.name == stored.name)
                              && Final(files, e) == (files - {stored.name})[t.name := Rendered(AppOf(t))])
      && (Stops(e.error) ==> Final(files, e) == files)
  {
    hide Rendered, CreateRoute;
    var r := Rendered(AppOf(t));
    PutEqual(files, t.name, Lookup(files, t.name));
    if t.name == stored.name {
      assert files[t.name := r] == (files - {stored.name})[t.name := r];
    } else if t.name !in files {
      assert files[t.name := r] - {stored.name} == (files - {stored.name})[t.name := r];
    }
  }

  lemma BringAlongEffect(files: Files, stored: Target, t: Target, guard: Guard, o: CallOutcomes)
    requires ValidTarget(t, guard) && ValidName(stored.name) && QuietCall(o)
    ensures var e := BringRouteAlong(files, stored, t, guard, o);
      && (!Stops(e.error) && UsesAppRoute(t) ==>
            Final(files, e) == Kept(files, stored)[t.name := Rendered(AppOf(t))])
      && (!Stops(e.error) && UsesAppRoute(t) ==>
            t.name !in files || (UsesAppRoute(stored) && t.name == stored.name))
      && (!Stops(e.error) && !UsesAppRoute(t) ==> Final(files, e) == Kept(files, stored))
      && (Stops(e.error) ==>
            Final(files, e) == files || (Final(files, e) == Kept(files, stored) && !UsesAppRoute(t)))
  {
    if UsesAppRoute(stored) && UsesAppRoute(t) && stored.name in files {
      KeepRouteEffect(files, stored, t, guard, o);
    } else {
      hide Rendered, CreateRoute;
      CreateRouteEffect(files, t, guard, o.first);
      CreateRouteEffect(files, t, guard, o.second);
      DeleteRouteEffect(files, stored.name, o.first);
      if stored.name !in files {
        assert files - {stored.name} == files;
      }
    }
  }

  lemma UpdateDone(files: Files, was: string, name: string, valid: bool, content: string, o: Outcomes)
    requires !Stops(FragmentDir.Update(files, was, name, valid, content, o).error)
    ensures var f1 := Final(files, FragmentDir.Update(files, was, name, valid, content, o));
      && Seen(files, was, o.statOldOk) && Lookup(f1, name) == Some(content) && (was != name ==> was !in f1)
  {
  }

  lemma UpdateNotFound(files: Files, was: string, name: string, content: string, o: Outcomes)
    ensures var e := FragmentDir.Update(files, was, name, true, content, o);
      e.error == Some(NotFound) <==> !Seen(files, was, o.statOldOk)
    ensures !Seen(files, was, o.statOldOk) ==> Final(files, FragmentDir.Update(files, was, name, true, content, o)) == files
  {
  }

  /** Of a change that was brought to an end, whatever its steps answered: the new route
      is in place, and the old one is gone unless the test of its existence failed. */
  lemma BringAlongDone(files: Files, stored: Target, t: Target, guard: Guard, o: CallOutcomes)
    requires ValidTarget(t, guard) && ValidName(stored.name)
    requires !Stops(BringRouteAlong(files, stored, t, guard, o).error)
    ensures var f1 := Final(files, BringRouteAlong(files, stored, t, guard, o));
      && (UsesAppRoute(t) ==> Lookup(f1, t.name) == Some(Rendered(AppOf(t))))
      && (UsesAppRoute(stored) && !(UsesAppRoute(t) && t.name == stored.name) ==>
            (stored.name in f1 <==> stored.name in files && !o.first.statOldOk))
  {
    assert ValidName(t.name) && TargetCharset(t.target) && guard(t.target);
    CreateRouteEffect(files, t, guard, o.first);
    CreateRouteEffect(files, t, guard, o.second);
    DeleteRouteEffect(files, stored.name, o.first);
    hide Rendered, CreateRoute, ValidTarget, ValidName, TargetCharset, FragmentDir.Update, FragmentDir.Delete;
    var r := Rendered(AppOf(t));
    UpdateNotFound(files, stored.name, t.name, r, o.first);
    if !Stops(FragmentDir.Update(files, stored.name, t.name, true, r, o.first).error) {
      UpdateDone(files, stored.name, t.name, true, r, o.first);
    }
  }

  // ------------------------------------------------- one change to the registry

  lemma SameMembers(s: Store, ts: seq<Target>, foreign: Files, guard: Guard)
    requires Lockstep(s, foreign, guard)
    requires Distinct(ts) && forall x :: x in ts <==> x in s.targets
    ensures Lockstep(s.(targets := ts), foreign, guard)
  {
  }

  lemma Adding(s: Store, t: Target, foreign: Files, guard: Guard)
    requires Lockstep(s, foreign, guard) && ValidTarget(t, guard)
    requires forall x :: x in s.targets ==> x.name != t.name
    requires UsesAppRoute(t) ==> t.name !in s.files
    ensures var files := if UsesAppRoute(t) then s.files[t.name := Rendered(AppOf(t))] else s.files;
      Lockstep(Store(s.targets + [t], files), foreign, guard)
  {
    RenderedMatches(t, guard);
    hide Rendered, AppRoutes.Parse, ValidTarget;
    var ts := s.targets + [t];
    var files := if UsesAppRoute(t) then s.files[t.name := Rendered(AppOf(t))] else s.files;
    assert Lookup(s.files, t.name) == Lookup(foreign, t.name) by {
      assert !Held(s.targets, t.name);
    }
    forall n | !Held(ts, n) ensures Lookup(files, n) == Lookup(foreign, n) {
      assert t in ts;
      assert !Held(s.targets, n);
    }
    forall x | x in ts && UsesAppRoute(x) ensures x.name !in foreign && FragmentMatches(files, x) {
      assert x == t || x in s.targets;
    }
  }

  /** The fragment of an App-Route-backed target may go missing. */
  lemma Missing(s: Store, t: Target, foreign: Files, guard: Guard)
    requires Lockstep(s, foreign, guard) && t in s.targets && UsesAppRoute(t)
    ensures Lockstep(s.(files := s.files - {t.name}), foreign, guard)
  {
  }

  function Without(ts: seq<Target>, i: nat): seq<Target>
    requires i < |ts|
  {
    ts[..i] + ts[i + 1..]
  }

  lemma WithoutMembers(ts: seq<Target>, i: nat)
    requires i < |ts| && Distinct(ts)
    ensures Distinct(Without(ts, i))
    ensures forall x :: x in Without(ts, i) <==> x in ts && x.name != ts[i].name
  {
  }

  lemma ReplacedMembers(ts: seq<Target>, i: nat, t: Target)
    requires i < |ts| && Distinct(ts)
    ensures forall x :: x in ts[i := t] <==> x == t || (x in ts && x.name != ts[i].name)
  {
    var after := ts[i := t];
    assert after[i] == t;
    forall x | x in ts && x.name != ts[i].name ensures x in after {
      var k :| 0 <= k < |ts| && ts[k] == x;
      assert after[k] == x;
    }
    forall x | x in after && x != t ensures x in ts && x.name != ts[i].name {
      var k :| 0 <= k < |after| && after[k] == x;
      assert ts[k] == x && k != i;
    }
  }

  lemma Removing(s: Store, i: nat, foreign: Files, guard: Guard)
    requires Lockstep(s, foreign, guard) && i < |s.targets|
    ensures Lockstep(Store(Without(s.targets, i), Kept(s.files, s.targets[i])), foreign, guard)
  {
  }

  lemma Replacing(s: Store, i: nat, t: Target, foreign: Files, guard: Guard)
    requires Lockstep(s, foreign, guard) && i < |s.targets| && ValidTarget(t, guard)
    requires forall x :: x in s.targets && x.name != s.targets[i].name ==> x.name != t.name
    requires UsesAppRoute(t) ==> t.name !in Kept(s.files, s.targets[i])
    ensures var kept := Kept(s.files, s.targets[i]);
      var files := if UsesAppRoute(t) then kept[t.name := Rendered(AppOf(t))] else kept;
      Lockstep(Store(Sorted(s.targets[i := t]), files), foreign, guard)
  {
    hide Lockstep, Rendered, ValidTarget, Kept, Sorted, AppRoutes.Parse;
    assert Distinct(s.targets) by { DistinctTargets(s, foreign, guard); }
    Removing(s, i, foreign, guard);
    WithoutMembers(s.targets, i);
    var left := Without(s.targets, i);
    var kept := Kept(s.files, s.targets[i]);
    var files := if UsesAppRoute(t) then kept[t.name := Rendered(AppOf(t))] else kept;
    Adding(Store(left, kept), t, foreign, guard);
    var ts := s.targets[i := t];
    SortedKeeps(ts);
    ReplacedMembers(s.targets, i, t);
    SameMembers(Store(left + [t], files), Sorted(ts), foreign, guard);
  }

  lemma DistinctTargets(s: Store, foreign: Files, guard: Guard)
    requires Lockstep(s, foreign, guard)
    ensures Distinct(s.targets)
    ensures forall t :: t in s.targets ==> ValidTarget(t, guard)
  {
  }

  // ------------------------------------------------------------ one call

  lemma CreatedKeepsLockstep(s: Store, t: Target, files: Files, foreign: Files, guard: Guard)
    requires Lockstep(s, foreign, guard) && ValidTarget(t, guard)
    requires forall x :: x in s.targets ==> x.name != t.name
    requires UsesAppRoute(t) ==> t.name !in s.files
    requires files == if UsesAppRoute(t) then s.files[t.name := Rendered(AppOf(t))] else s.files
    ensures Lockstep(Store(Sorted(s.targets + [t]), files), foreign, guard)
    ensures UsesAppRoute(t) ==> files - {t.name} == s.files
  {
    hide Lockstep, ValidTarget, Rendered, Sorted;
    Adding(s, t, foreign, guard);
    var ts := s.targets + [t];
    DistinctTargets(Store(ts, files), foreign, guard);
    SortedKeeps(ts);
    SameMembers(Store(ts, files), Sorted(ts), foreign, guard);
  }

  lemma CreateKeepsLockstep(s: Store, t: Target, o: CallOutcomes, foreign: Files, guard: Guard)
    requires Lockstep(s, foreign, guard) && QuietCall(o)
    ensures Lockstep(CreateTarget(s, t, guard, o).0, foreign, guard)
  {
    if ValidTarget(t, guard) && IndexOf(s.targets, t.name) < 0 {
      assert ValidName(t.name);
      hide Lockstep, ValidTarget, Rendered, Sorted, CreateRoute, FragmentDir.Delete, ValidName;
      var files := if UsesAppRoute(t) then s.files[t.name := Rendered(AppOf(t))] else s.files;
      CreateRouteEffect(s.files, t, guard, o.first);
      DeleteRouteEffect(files, t.name, o.second);
      if !UsesAppRoute(t) || !Stops(CreateRoute(s.files, t, guard, o.first).error) {
        CreatedKeepsLockstep(s, t, files, foreign, guard);
      }
    }
  }

  lemma DeleteKeepsLockstep(s: Store, name: string, o: CallOutcomes, foreign: Files, guard: Guard)
    requires Lockstep(s, foreign, guard) && QuietCall(o)
    ensures Lockstep(DeleteTarget(s, name, o).0, foreign, guard)
  {
    var i := IndexOf(s.targets, name);
    if i >= 0 {
      var gone := s.targets[i];
      DistinctTargets(s, foreign, guard);
      assert ValidTarget(gone, guard) && ValidName(name);
      hide Lockstep, ValidTarget, Sorted, FragmentDir.Delete, ValidName;
      DeleteRouteEffect(s.files, name, o.first);
      if UsesAppRoute(gone) {
        Missing(s, gone, foreign, guard);
      }
      Removing(s, i, foreign, guard);
      var left := Store(Without(s.targets, i), Kept(s.files, gone));
      DistinctTargets(left, foreign, guard);
      SortedKeeps(left.targets);
      SameMembers(left, Sorted(left.targets), foreign, guard);
    }
  }

  /** A call whose registry save, if it fails, leaves no fragment to disagree with. */
  predicate SaveCannotHurt(s: Store, oldName: string, t: Target) {
    !UsesAppRoute(t)
    || var i := IndexOf(s.targets, oldName);
      i >= 0 && UsesAppRoute(s.targets[i]) && AppOf(t) == AppOf(s.targets[i])
  }

  lemma FreshName(s: Store, oldName: string, t: Target)
    requires Distinct(s.targets) && IndexOf(s.targets, oldName) >= 0
    requires t.name == oldName || IndexOf(s.targets, t.name) < 0
    ensures forall x :: x in s.targets && x.name != oldName ==> x.name != t.name
  {
  }

  lemma UpdateKeepsLockstep(s: Store, oldName: string, t: Target, o: CallOutcomes, foreign: Files, guard: Guard)
    requires Lockstep(s, foreign, guard) && QuietCall(o)
    requires UpdateTarget(s, oldName, t, guard, o).1 != Some(SaveFailed)
    ensures Lockstep(UpdateTarget(s, oldName, t, guard, o).0, foreign, guard)
  {
    var i := IndexOf(s.targets, oldName);
    if ValidTarget(t, guard) && i >= 0 && (t.name == oldName || IndexOf(s.targets, t.name) < 0) {
      var stored := s.targets[i];
      DistinctTargets(s, foreign, guard);
      assert ValidTarget(stored, guard) && ValidName(stored.name);
      FreshName(s, oldName, t);
      hide Lockstep, ValidTarget, Sorted, ValidName, Rendered, BringRouteAlong;
      BringAlongEffect(s.files, stored, t, guard, o);
      if UsesAppRoute(stored) {
        Missing(s, stored, foreign, guard);
      }
      if !Stops(BringRouteAlong(s.files, stored, t, guard, o).error) {
        Replacing(s, i, t, foreign, guard);
      }
    }
  }

  /** Update brings the route along before it saves and does not roll back. When the
      save fails, the fragment and the registry still agree exactly if the new target
      wants no route, or the route it wants is the one it had. */
  lemma UpdateWithFailedSave(s: Store, oldName: string, t: Target, o: CallOutcomes, foreign: Files, guard: Guard)
    requires Lockstep(s, foreign, guard) && QuietCall(o)
    requires UpdateTarget(s, oldName, t, guard, o).1 == Some(SaveFailed)
    ensures Lockstep(UpdateTarget(s, oldName, t, guard, o).0, foreign, guard) <==> SaveCannotHurt(s, oldName, t)
  {
    var i := IndexOf(s.targets, oldName);
    var stored := s.targets[i];
    DistinctTargets(s, foreign, guard);
    assert ValidTarget(stored, guard) && ValidName(stored.name);
    FreshName(s, oldName, t);
    BringAlongEffect(s.files, stored, t, guard, o);
    var files := Final(s.files, BringRouteAlong(s.files, stored, t, guard, o));
    var after := s.(files := files);
    hide ValidTarget, Sorted, ValidName, Rendered, BringRouteAlong, Lockstep, AppRoutes.Parse;
    if !UsesAppRoute(t) {
      if UsesAppRoute(stored) {
        Missing(s, stored, foreign, guard);
      }
    } else {
      RenderedMatches(t, guard);
      assert files == Kept(s.files, stored)[t.name := Rendered(AppOf(t))];
      if UsesAppRoute(stored) && t.name == stored.name {
        SameNameAfterFailedSave(s, stored, t, foreign, guard, files);
      } else {
        StrangeFragment(after, t.name, s, stored, foreign, guard);
      }
    }
  }

  lemma SampleIsValid(t: Target, guard: Guard)
    requires t == Target("a", "", t.target, "novnc", false, "")
    requires TargetCharset(t.target) && guard(t.target)
    ensures ValidTarget(t, guard)
  {
  }

  lemma SampleFailsToSave(was: Target, now: Target, guard: Guard)
    requires was.name == now.name && UsesAppRoute(was) && UsesAppRoute(now)
    requires ValidTarget(now, guard)
    ensures var s := Store([was], map[was.name := Rendered(AppOf(was))]);
      UpdateTarget(s, was.name, now, guard, CallOutcomes(ALL_WELL, ALL_WELL, false))
      == (Store([was], map[was.name := Rendered(AppOf(now))]), Some(SaveFailed))
  {
    assert ValidName(now.name) && TargetCharset(now.target) && guard(now.target);
    hide ValidTarget, Rendered, ValidName, TargetCharset;
    var s := Store([was], map[was.name := Rendered(AppOf(was))]);
    assert IndexOf(s.targets, was.name) == 0;
    assert s.files[was.name := Rendered(AppOf(now))] == map[was.name := Rendered(AppOf(now))];
  }

  /** The other outcome does occur: a repointed target whose save fails keeps its old
      registry entry beside the new fragment. */
  lemma FailedSaveCanDiverge(guard: Guard)
    requires guard("code-docker:6080") && guard("code-docker:6081")
    ensures var was := Target("a", "", "code-docker:6080", "novnc", false, "");
      var now := was.(target := "code-docker:6081");
      var s := Store([was], map["a" := Rendered(AppOf(was))]);
      var (after, err) := UpdateTarget(s, "a", now, guard, CallOutcomes(ALL_WELL, ALL_WELL, false));
      && RouteState(s.files, was) == (false, false)
      && err == Some(SaveFailed) && after.targets == [was] && RouteState(after.files, was) == (false, true)
  {
    hide ValidTarget, Rendered, AppRoutes.Parse, UpdateTarget;
    var was := Target("a", "", "code-docker:6080", "novnc", false, "");
    var now := was.(target := "code-docker:6081");
    SampleIsValid(was, guard);
    SampleIsValid(now, guard);
    RenderedMatches(was, guard);
    RenderedMatches(now, guard);
    SampleFailsToSave(was, now, guard);
  }

  lemma SameNameAfterFailedSave(s: Store, stored: Target, t: Target, foreign: Files, guard: Guard, files: Files)
    requires Lockstep(s, foreign, guard) && stored in s.targets && UsesAppRoute(stored) && t.name == stored.name
    requires AppRoutes.Parse(t.name, Rendered(AppOf(t))) == Some(AppOf(t))
    requires files == Kept(s.files, stored)[t.name := Rendered(AppOf(t))]
    ensures Lockstep(s.(files := files), foreign, guard) <==> AppOf(t) == AppOf(stored)
  {
    hide ValidTarget, Rendered, AppRoutes.Parse;
    assert Held(s.targets, t.name);
    var after := s.(files := files);
    if AppOf(t) == AppOf(stored) {
      forall x | x in s.targets && UsesAppRoute(x) ensures FragmentMatches(files, x) {
        assert FragmentMatches(s.files, x);
        if x.name == t.name {
          assert x == stored;
        }
      }
    } else {
      assert !FragmentMatches(files, stored);
    }
  }

  lemma StrangeFragment(after: Store, name: string, s: Store, stored: Target, foreign: Files, guard: Guard)
    requires Lockstep(s, foreign, guard) && after.targets == s.targets && name in after.files
    requires stored in s.targets && (name == stored.name ==> !UsesAppRoute(stored))
    requires forall x :: x in s.targets && x.name != stored.name ==> x.name != name
    requires name !in Kept(s.files, stored)
    ensures !Lockstep(after, foreign, guard)
  {
    hide ValidTarget, AppRoutes.Parse;
    forall x | x in s.targets && x.name == name ensures !UsesAppRoute(x) {
      assert x == stored;
    }
    assert Lookup(s.files, name) == Lookup(foreign, name);
    assert Lookup(s.files, name) == None;
  }

  // ---------------------------------------------------------------- whole runs

  function After(s: Store, calls: seq<Call>, guard: Guard): Store
    decreases |calls|
  {
    if calls == [] then s else After(Perform(s, calls[0], guard).0, calls[1..], guard)
  }

  /** The outside world may answer anything, except that file operations succeed, and
      the save does too in an update that changes what the route serves. */
  predicate Benign(s: Store, c: Call) {
    && QuietCall(c.o)
    && (c.UpdateCall? ==> c.o.saveOk || SaveCannotHurt(s, c.oldName, c.t))
  }

  predicate BenignRun(s: Store, calls: seq<Call>, guard: Guard)
    decreases |calls|
  {
    calls == [] || (Benign(s, calls[0]) && BenignRun(Perform(s, calls[0], guard).0, calls[1..], guard))
  }

  lemma CallKeepsLockstep(s: Store, c: Call, foreign: Files, guard: Guard)
    requires Lockstep(s, foreign, guard) && Benign(s, c)
    ensures Lockstep(Perform(s, c, guard).0, foreign, guard)
  {
    hide Lockstep, ValidTarget, BringRouteAlong, Sorted, Rendered, CreateTarget, DeleteTarget;
    match c
    case CreateCall(t, o) => CreateKeepsLockstep(s, t, o, foreign, guard);
    case DeleteCall(name, o) => DeleteKeepsLockstep(s, name, o, foreign, guard);
    case UpdateCall(oldName, t, o) =>
      if UpdateTarget(s, oldName, t, guard, o).1 == Some(SaveFailed) {
        UpdateWithFailedSave(s, oldName, t, o, foreign, guard);
      } else {
        UpdateKeepsLockstep(s, oldName, t, o, foreign, guard);
      }
  }

  lemma {:induction false} RunKeepsLockstep(s: Store, calls: seq<Call>, foreign: Files, guard: Guard)
    requires Lockstep(s, foreign, guard) && BenignRun(s, calls, guard)
    ensures Lockstep(After(s, calls, guard), foreign, guard)
    decreases |calls|
  {
    hide Lockstep, Perform, Benign;
    if calls != [] {
      CallKeepsLockstep(s, calls[0], foreign, guard);
      RunKeepsLockstep(Perform(s, calls[0], guard).0, calls[1..], foreign, guard);
    }
  }

  /** From an empty registry beside any fragments of other people, every run ends with
      distinct names, no diverged target, no orphan, and those fragments unchanged. */
  lemma EveryRunInLockstep(foreign: Files, calls: seq<Call>, guard: Guard)
    requires BenignRun(Store([], foreign), calls, guard)
    ensures var s := After(Store([], foreign), calls, guard);
      && Distinct(s.targets)
      && (forall t :: t in s.targets ==> RouteState(s.files, t) == (UsesAppRoute(t) && t.name !in s.files, false))
      && (forall n :: n in s.files ==> (n in foreign && s.files[n] == foreign[n]) || Held(s.targets, n))
      && (forall n :: n in foreign ==> Lookup(s.files, n) == Lookup(foreign, n))
  {
    var start := Store([], foreign);
    assert Lockstep(start, foreign, guard);
    RunKeepsLockstep(start, calls, foreign, guard);
    var s := After(start, calls, guard);
    hide ValidTarget, BenignRun, After, AppRoutes.Parse;
    forall n | n in s.files && !Held(s.targets, n) ensures n in foreign && s.files[n] == foreign[n] {
      assert Lookup(s.files, n) == Lookup(foreign, n);
    }
    forall n | n in foreign ensures Lookup(s.files, n) == Lookup(foreign, n) {
      assert !Held(s.targets, n);
    }
  }

  // ------------------------------------------------------ whatever happens at all

  /** The call comes to write the fragment n although the existence test it made of n
      beforehand failed, as if n were not there. */
  predicate WritesUnseen(s: Store, c: Call, guard: Guard, n: string) {
    match c
    case CreateCall(t, o) =>
      UsesAppRoute(t) && t.name == n && ValidTarget(t, guard) && IndexOf(s.targets, n) < 0 && !o.first.statNewOk
    case DeleteCall(_, _) => false
    case UpdateCall(oldName, t, o) =>
      var i := IndexOf(s.targets, oldName);
      && UsesAppRoute(t) && t.name == n && ValidTarget(t, guard) && i >= 0
      && (n == oldName || IndexOf(s.targets, n) < 0)
      && if UsesAppRoute(s.targets[i]) && !Seen(s.files, oldName, o.first.statOldOk) then !o.second.statNewOk
         else !o.first.statNewOk
  }

  /** No call that meets no such failing test, however its other steps end, changes or
      removes a fragment whose name no stored App-Route-backed target holds. */
  lemma StrangersUntouched(s: Store, c: Call, guard: Guard, n: string)
    requires n in s.files && !Held(s.targets, n) && !WritesUnseen(s, c, guard, n)
    ensures Lookup(Perform(s, c, guard).0.files, n) == Some(s.files[n])
  {
    hide ValidTarget, Rendered, Sorted, CreateRoute, BringRouteAlong;
    match c
    case CreateCall(t, o) =>
      if UsesAppRoute(t) && ValidTarget(t, guard) && IndexOf(s.targets, t.name) < 0 {
        StrangerInCreate(s.files, t, guard, o.first, n);
      }
    case DeleteCall(name, o) =>
      var i := IndexOf(s.targets, name);
      if i >= 0 && UsesAppRoute(s.targets[i]) {
        assert name != n;
      }
    case UpdateCall(oldName, t, o) =>
      var i := IndexOf(s.targets, oldName);
      if i >= 0 && ValidTarget(t, guard) && (t.name == oldName || IndexOf(s.targets, t.name) < 0) {
        assert UsesAppRoute(s.targets[i]) ==> oldName != n;
        StrangerInUpdate(s.files, s.targets[i], t, guard, o, n);
      }
  }

  lemma StrangerInCreate(files: Files, t: Target, guard: Guard, o: Outcomes, n: string)
    requires n in files && (t.name == n ==> o.statNewOk)
    ensures var e := CreateRoute(files, t, guard, o);
      && Lookup(Final(files, e), n) == Some(files[n])
      && (!Stops(e.error) ==> t.name != n)
  {
    hide Rendered, ValidName, TargetCharset;
  }

  lemma StrangerInUpdate(files: Files, stored: Target, t: Target, guard: Guard, o: CallOutcomes, n: string)
    requires n in files && (UsesAppRoute(stored) ==> stored.name != n)
    requires UsesAppRoute(t) && t.name == n ==>
      if UsesAppRoute(stored) && !Seen(files, stored.name, o.first.statOldOk) then o.second.statNewOk
      else o.first.statNewOk
    ensures Lookup(Final(files, BringRouteAlong(files, stored, t, guard, o)), n) == Some(files[n])
  {
    hide Rendered, ValidName, TargetCharset, CreateRoute;
    if t.name == n ==> o.first.statNewOk {
      StrangerInCreate(files, t, guard, o.first, n);
    }
    if t.name == n ==> o.second.statNewOk {
      StrangerInCreate(files, t, guard, o.second, n);
    }
  }

  function WithOutcomes(c: Call, o: CallOutcomes): Call {
    match c
    case CreateCall(t, _) => CreateCall(t, o)
    case UpdateCall(n, t, _) => UpdateCall(n, t, o)
    case DeleteCall(n, _) => DeleteCall(n, o)
  }

  /** The same existence tests fail. */
  predicate SameTests(o: CallOutcomes, o': CallOutcomes) {
    && o.first.statOldOk == o'.first.statOldOk && o.first.statNewOk == o'.first.statNewOk
    && o.second.statOldOk == o'.second.statOldOk && o.second.statNewOk == o'.second.statNewOk
  }

  /** A write that is cut off before anything of the new content is there. */
  function Losing(o: CallOutcomes): CallOutcomes {
    o.(first := o.first.(mkdirOk := true, write := WriteFailed(None)),
       second := o.second.(mkdirOk := true, write := WriteFailed(None)))
  }

  lemma LosingLoses(s: Store, c: Call, guard: Guard, n: string)
    requires n in s.files && !Held(s.targets, n) && WritesUnseen(s, c, guard, n)
    ensures Lookup(Perform(s, WithOutcomes(c, Losing(c.o)), guard).0.files, n) == None
  {
    match c
    case CreateCall(t, o) =>
      assert ValidName(t.name) && TargetCharset(t.target) && guard(t.target);
      hide ValidTarget, Rendered, Sorted, ValidName, TargetCharset;
    case UpdateCall(oldName, t, o) =>
      assert ValidName(t.name) && TargetCharset(t.target) && guard(t.target);
      var i := IndexOf(s.targets, oldName);
      assert UsesAppRoute(s.targets[i]) ==> oldName != n;
      hide ValidTarget, Rendered, Sorted, ValidName, TargetCharset;
      LosingRoute(s.files, s.targets[i], t, guard, o, n);
  }

  lemma LosingRoute(files: Files, stored: Target, t: Target, guard: Guard, o: CallOutcomes, n: string)
    requires n in files && (UsesAppRoute(stored) ==> stored.name != n)
    requires UsesAppRoute(t) && t.name == n && ValidName(t.name) && TargetCharset(t.target) && guard(t.target)
    requires if UsesAppRoute(stored) && !Seen(files, stored.name, o.first.statOldOk) then !o.second.statNewOk
             else !o.first.statNewOk
    ensures var e := BringRouteAlong(files, stored, t, guard, Losing(o));
      Stops(e.error) && Lookup(Final(files, e), n) == None
  {
    hide Rendered, ValidName, TargetCharset;
  }

  /** A fragment nobody here owns is safe from a call, whatever its other steps answer,
      exactly if the call does not go on to write it after a failing existence test. */
  lemma StrangersExactly(s: Store, c: Call, guard: Guard, n: string)
    requires n in s.files && !Held(s.targets, n)
    ensures (forall o :: SameTests(o, c.o) ==> Lookup(Perform(s, WithOutcomes(c, o), guard).0.files, n) == Some(s.files[n]))
       <==> !WritesUnseen(s, c, guard, n)
  {
    hide Perform, Held, ValidTarget, IndexOf;
    if WritesUnseen(s, c, guard, n) {
      LosingLoses(s, c, guard, n);
      assert SameTests(Losing(c.o), c.o);
    } else {
      forall o | SameTests(o, c.o) ensures Lookup(Perform(s, WithOutcomes(c, o), guard).0.files, n) == Some(s.files[n]) {
        StrangersUntouched(s, WithOutcomes(c, o), guard, n);
      }
    }
  }

  /** It does happen: with a failing existence test and everything else well, a new
      target takes over somebody else's fragment of its name. */
  lemma StrangerCanBeOverwritten(guard: Guard)
    requires guard("code-docker:6080")
    ensures var t := Target("a", "", "code-docker:6080", "novnc", false, "");
      var o := CallOutcomes(ALL_WELL.(statNewOk := false), ALL_WELL, true);
      var (after, err) := CreateTarget(Store([], map["a" := "theirs"]), t, guard, o);
      err == None && after.files == map["a" := Rendered(AppOf(t))]
  {
    hide ValidTarget, Rendered, CreateRoute, Sorted, FragmentDir.Delete, ValidName;
    var t := Target("a", "", "code-docker:6080", "novnc", false, "");
    SampleIsValid(t, guard);
    TakenOver(t, guard, map["a" := "theirs"]);
    assert map["a" := "theirs"]["a" := Rendered(AppOf(t))] == map["a" := Rendered(AppOf(t))];
  }

  lemma TakenOver(t: Target, guard: Guard, files: Files)
    requires ValidTarget(t, guard)
    ensures var e := CreateRoute(files, t, guard, ALL_WELL.(statNewOk := false));
      e.error == None && Final(files, e) == files[t.name := Rendered(AppOf(t))]
  {
    assert ValidName(t.name) && TargetCharset(t.target) && guard(t.target);
    hide ValidTarget, Rendered, ValidName, TargetCharset;
  }

  /** What the caller is told: no error, or one that only the reload caused. */
  predicate Succeeds(e: Option<VncError>) {
    e.None? || e == Some(RouteError(ReloadFailed))
  }

  lemma CreatedMeansThere(s: Store, t: Target, guard: Guard, o: CallOutcomes)
    requires Succeeds(CreateTarget(s, t, guard, o).1)
    ensures var after := CreateTarget(s, t, guard, o).0;
      && (forall x :: x in after.targets <==> x == t || x in s.targets)
      && RouteState(after.files, t) == (false, false)
  {
    SortedKeeps(s.targets + [t]);
    RenderedMatches(t, guard);
    CreateRouteEffect(s.files, t, guard, o.first);
    hide ValidTarget, Rendered, Sorted, CreateRoute, AppRoutes.Parse;
  }

  lemma NamesAreValid(s: Store, guard: Guard)
    requires forall x :: x in s.targets ==> ValidTarget(x, guard)
    ensures forall x :: x in s.targets ==> ValidName(x.name)
  {
  }

  lemma Holder(ts: seq<Target>, i: nat)
    requires Distinct(ts) && i < |ts|
    ensures Held(ts, ts[i].name) <==> UsesAppRoute(ts[i])
  {
  }

  lemma UpdatedMeansThere(s: Store, oldName: string, t: Target, guard: Guard, o: CallOutcomes)
    requires Distinct(s.targets) && (forall x :: x in s.targets ==> ValidTarget(x, guard))
    requires Succeeds(UpdateTarget(s, oldName, t, guard, o).1)
    ensures var after := UpdateTarget(s, oldName, t, guard, o).0;
      && (forall x :: x in after.targets <==> x == t || (x in s.targets && x.name != oldName))
      && RouteState(after.files, t) == (false, false)
      && (Held(s.targets, oldName) && !(UsesAppRoute(t) && t.name == oldName) ==>
            (oldName in after.files <==> oldName in s.files && !o.first.statOldOk))
  {
    hide ValidTarget, ValidName, Rendered, Sorted, BringRouteAlong, AppRoutes.Parse, Distinct;
    var i := IndexOf(s.targets, oldName);
    Holder(s.targets, i);
    SortedKeeps(s.targets[i := t]);
    RenderedMatches(t, guard);
    NamesAreValid(s, guard);
    BringAlongDone(s.files, s.targets[i], t, guard, o);
    ReplacedMembers(s.targets, i, t);
  }

  lemma DeletedMeansGone(s: Store, name: string, guard: Guard, o: CallOutcomes)
    requires Distinct(s.targets) && (forall x :: x in s.targets ==> ValidTarget(x, guard))
    requires Succeeds(DeleteTarget(s, name, o).1)
    ensures var after := DeleteTarget(s, name, o).0;
      && (forall x :: x in after.targets <==> x in s.targets && x.name != name)
      && (Held(s.targets, name) ==> (name in after.files <==> name in s.files && !o.first.statOldOk))
  {
    hide ValidTarget, ValidName, Sorted, Distinct, FragmentDir.Delete;
    var i := IndexOf(s.targets, name);
    WithoutMembers(s.targets, i);
    SortedKeeps(Without(s.targets, i));
    NamesAreValid(s, guard);
    DeleteRouteEffect(s.files, name, o.first);
  }

  // -------------------------------------------------- when nothing goes wrong

  const CALL_WELL := CallOutcomes(ALL_WELL, ALL_WELL, true)

  /** The name of the fragment t wants is free, or taken by the target it replaces. */
  predicate RouteFree(files: Files, t: Target, had: bool, was: string) {
    UsesAppRoute(t) ==> t.name !in files || (had && t.name == was)
  }

  lemma CreateRouteWell(files: Files, t: Target, guard: Guard)
    requires ValidTarget(t, guard)
    ensures CreateRoute(files, t, guard, ALL_WELL).error == if t.name in files then Some(Exists) else None
  {
    hide Rendered;
  }

  /** With nothing failing outside, a create is refused only for the target itself, for a
      registered name, or for a fragment somebody else owns. */
  lemma CreateSucceedsExactly(s: Store, t: Target, guard: Guard)
    ensures CreateTarget(s, t, guard, CALL_WELL).1 == None
       <==> ValidTarget(t, guard) && IndexOf(s.targets, t.name) < 0 && RouteFree(s.files, t, false, "")
  {
    hide ValidTarget, CreateRoute, Sorted;
    if ValidTarget(t, guard) {
      CreateRouteWell(s.files, t, guard);
    }
  }

  lemma BringAlongWell(files: Files, stored: Target, t: Target, guard: Guard)
    requires ValidTarget(t, guard) && ValidName(stored.name)
    ensures BringRouteAlong(files, stored, t, guard, CALL_WELL).error
         == if RouteFree(files, t, UsesAppRoute(stored), stored.name) then None else Some(Exists)
  {
    CreateRouteWell(files, t, guard);
    assert ValidName(t.name) && TargetCharset(t.target) && guard(t.target);
    hide Rendered, CreateRoute, ValidTarget, ValidName, TargetCharset;
  }

  /** An update likewise; a route that went missing is no obstacle, it comes back. */
  lemma UpdateSucceedsExactly(s: Store, oldName: string, t: Target, guard: Guard)
    requires forall x :: x in s.targets ==> ValidTarget(x, guard)
    ensures UpdateTarget(s, oldName, t, guard, CALL_WELL).1 == None
       <==> var i := IndexOf(s.targets, oldName);
            && ValidTarget(t, guard) && i >= 0 && (t.name == oldName || IndexOf(s.targets, t.name) < 0)
            && RouteFree(s.files, t, UsesAppRoute(s.targets[i]), oldName)
  {
    hide ValidTarget, ValidName, BringRouteAlong, Sorted, RouteFree;
    var i := IndexOf(s.targets, oldName);
    if ValidTarget(t, guard) && i >= 0 {
      NamesAreValid(s, guard);
      BringAlongWell(s.files, s.targets[i], t, guard);
    }
  }

  /** A delete of a registered target always goes through, with its route or without. */
  lemma DeleteSucceedsExactly(s: Store, name: string, guard: Guard)
    requires forall x :: x in s.targets ==> ValidTarget(x, guard)
    ensures DeleteTarget(s, name, CALL_WELL).1 == None <==> IndexOf(s.targets, name) >= 0
  {
    hide ValidTarget, ValidName, Sorted;
    NamesAreValid(s, guard);
  }
}
