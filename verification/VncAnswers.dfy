/** What every registry call answers, for all answers of the outside world, and what is
    stored: the list in name order, and the drift that a listing reports. */
module VncAnswers {
  import opened Options
  import opened FragmentDir
  import opened FragmentEffects
  import opened Validate
  import opened AppRoutes
  import opened Vnc
  import opened VncTheorems

  // ------------------------------------------------------------------ the order

  /** Where a and b first differ, a has the smaller character, or nothing more. */
  predicate DiffersAt(a: string, b: string, k: int) {
    && 0 <= k <= |a| && k < |b| && a[..k] == b[..k]
    && (k == |a| || a[k] < b[k])
  }

  lemma SameStart(a: string, b: string, k: int)
    requires 0 < k <= |a| && k <= |b| && a[..k] == b[..k]
    ensures a[0] == b[0]
  {
    assert a[0] == a[..k][0] && b[0] == b[..k][0];
  }

  lemma {:induction false} LessExactly(a: string, b: string)
    ensures Less(a, b) <==> exists k :: DiffersAt(a, b, k)
  {
    if b != "" {
      if a == "" || a[0] < b[0] {
        assert DiffersAt(a, b, 0);
      } else if a[0] == b[0] {
        LessExactly(a[1..], b[1..]);
        if k :| DiffersAt(a[1..], b[1..], k) {
          assert a[..k + 1] == [a[0]] + a[1..][..k] && b[..k + 1] == [b[0]] + b[1..][..k];
          assert DiffersAt(a, b, k + 1);
        }
        if k :| DiffersAt(a, b, k) {
          assert k > 0;
          assert a[1..][..k - 1] == a[..k][1..] && b[1..][..k - 1] == b[..k][1..];
          assert DiffersAt(a[1..], b[1..], k - 1);
        }
      } else {
        forall k ensures !DiffersAt(a, b, k) {
          if k > 0 && DiffersAt(a, b, k) {
            SameStart(a, b, k);
          }
        }
      }
    }
  }

  lemma {:induction false} LessIsTotal(a: string, b: string)
    ensures Less(a, b) || a == b || Less(b, a)
    ensures !(Less(a, b) && Less(b, a))
  {
    if a != "" && b != "" {
      LessIsTotal(a[1..], b[1..]);
      assert a == [a[0]] + a[1..] && b == [b[0]] + b[1..];
    }
  }

  lemma {:induction false} LessIsTransitive(a: string, b: string, c: string)
    requires Less(a, b) && Less(b, c)
    ensures Less(a, c)
  {
    if a != "" && b != "" && c != "" && a[0] == b[0] == c[0] {
      LessIsTransitive(a[1..], b[1..], c[1..]);
    }
  }

  /** Names ascend. */
  predicate Ascending(ts: seq<Target>) {
    forall i, j :: 0 <= i < j < |ts| ==> Less(ts[i].name, ts[j].name)
  }

  lemma {:induction false} InsertAdds(t: Target, ts: seq<Target>)
    ensures multiset(Insert(t, ts)) == multiset(ts) + multiset{t}
  {
    if ts != [] {
      assert ts == [ts[0]] + ts[1..];
      InsertAdds(t, ts[1..]);
    }
  }

  lemma {:induction false} InsertAscends(t: Target, ts: seq<Target>)
    requires Ascending(ts) && forall x :: x in ts ==> x.name != t.name
    ensures Ascending(Insert(t, ts))
  {
    hide Less;
    if ts != [] {
      var first, rest := ts[0], ts[1..];
      assert ts == [first] + rest;
      assert forall i :: 0 <= i < |rest| ==> rest[i] == ts[i + 1];
      LessIsTotal(t.name, first.name);
      if Less(t.name, first.name) {
        forall j | 0 <= j < |ts| ensures Less(t.name, ts[j].name) {
          if j > 0 {
            LessIsTransitive(t.name, first.name, ts[j].name);
          }
        }
      } else {
        InsertAscends(t, rest);
        InsertKeeps(t, rest);
        hide Insert, Ascending;
        assert forall x :: x in rest ==> Less(first.name, x.name) by {
          BelowTheRest(ts);
        }
        PutFirst(first, Insert(t, rest));
      }
    }
  }

  lemma BelowTheRest(ts: seq<Target>)
    requires Ascending(ts) && ts != []
    ensures forall x :: x in ts[1..] ==> Less(ts[0].name, x.name)
  {
    hide Less;
    assert forall i :: 0 <= i < |ts| - 1 ==> ts[1..][i] == ts[i + 1];
  }

  lemma PutFirst(first: Target, ts: seq<Target>)
    requires Ascending(ts) && forall x :: x in ts ==> Less(first.name, x.name)
    ensures Ascending([first] + ts)
  {
    hide Less;
  }

  /** The list that is saved has the targets given, in the order of their names. */
  lemma {:induction false} SavedInNameOrder(ts: seq<Target>)
    requires Distinct(ts)
    ensures Ascending(Sorted(ts)) && multiset(Sorted(ts)) == multiset(ts)
  {
    if ts != [] {
      var n := |ts| - 1;
      assert ts == ts[..n] + [ts[n]];
      SavedInNameOrder(ts[..n]);
      SortedKeeps(ts[..n]);
      InsertAscends(ts[n], Sorted(ts[..n]));
      InsertAdds(ts[n], Sorted(ts[..n]));
    }
  }

  lemma AscendingIsDistinct(ts: seq<Target>)
    requires Ascending(ts)
    ensures Distinct(ts)
  {
    forall i, j | 0 <= i < j < |ts| ensures ts[i].name != ts[j].name {
      LessIsTotal(ts[i].name, ts[j].name);
    }
  }

  lemma UpdatedInOrder(s: Store, oldName: string, t: Target)
    requires Ascending(s.targets)
    ensures var i := IndexOf(s.targets, oldName);
      i >= 0 && (t.name == oldName || IndexOf(s.targets, t.name) < 0) ==> Ascending(Sorted(s.targets[i := t]))
  {
    AscendingIsDistinct(s.targets);
    hide Less, Ascending, Sorted;
    var i := IndexOf(s.targets, oldName);
    if i >= 0 && (t.name == oldName || IndexOf(s.targets, t.name) < 0) {
      FreshName(s, oldName, t);
      assert Distinct(s.targets[i := t]);
      SavedInNameOrder(s.targets[i := t]);
    }
  }

  lemma CreatedInOrder(s: Store, t: Target)
    requires Ascending(s.targets)
    ensures IndexOf(s.targets, t.name) < 0 ==> Ascending(Sorted(s.targets + [t]))
  {
    AscendingIsDistinct(s.targets);
    hide Less, Ascending, Sorted;
    if IndexOf(s.targets, t.name) < 0 {
      SavedInNameOrder(s.targets + [t]);
    }
  }

  lemma DeletedInOrder(s: Store, name: string)
    requires Ascending(s.targets)
    ensures var i := IndexOf(s.targets, name); i >= 0 ==> Ascending(Sorted(s.targets[..i] + s.targets[i + 1..]))
  {
    AscendingIsDistinct(s.targets);
    hide Less, Ascending, Sorted;
    var i := IndexOf(s.targets, name);
    if i >= 0 {
      SavedInNameOrder(s.targets[..i] + s.targets[i + 1..]);
    }
  }

  lemma CallKeepsOrder(s: Store, c: Call, guard: Guard)
    requires Ascending(s.targets)
    ensures Ascending(Perform(s, c, guard).0.targets)
  {
    hide Less, Ascending, ValidTarget, CreateRoute, BringRouteAlong, FragmentDir.Delete, Sorted;
    match c
    case CreateCall(t, o) => CreatedInOrder(s, t);
    case UpdateCall(oldName, t, o) => UpdatedInOrder(s, oldName, t);
    case DeleteCall(name, o) => DeletedInOrder(s, name);
  }

  /** After every run, whatever failed in it, names are distinct and stored in order. */
  lemma {:induction false} EveryRunInNameOrder(s: Store, calls: seq<Call>, guard: Guard)
    requires Ascending(s.targets)
    ensures Ascending(After(s, calls, guard).targets) && Distinct(After(s, calls, guard).targets)
    decreases |calls|
  {
    hide Ascending, Perform, Less;
    if calls != [] {
      CallKeepsOrder(s, calls[0], guard);
      EveryRunInNameOrder(Perform(s, calls[0], guard).0, calls[1..], guard);
    } else {
      AscendingIsDistinct(s.targets);
    }
  }

  // ------------------------------------------------------------------ drift

  lemma ParsedHasTheName(name: string, content: string)
    ensures AppRoutes.Parse(name, content).Some? ==> AppRoutes.Parse(name, content).value.name == name
  {
    hide HeaderLine, ProxyTarget;
  }

  /** A route is reported missing exactly if there should be a fragment and is none, and
      diverged exactly if there is one that does not parse back to this very target. */
  lemma RouteStateExactly(files: Files, t: Target)
    ensures RouteState(files, t).0 <==> UsesAppRoute(t) && t.name !in files
    ensures RouteState(files, t).1 <==>
      UsesAppRoute(t) && t.name in files && AppRoutes.Parse(t.name, files[t.name]) != Some(AppOf(t))
  {
    if t.name in files {
      ParsedHasTheName(t.name, files[t.name]);
    }
    hide AppRoutes.Parse;
  }

  // ------------------------------------------------------------------ answers

  predicate Registered(ts: seq<Target>, name: string) {
    exists i :: 0 <= i < |ts| && ts[i].name == name
  }

  /** A new fragment gets into place. */
  predicate RouteComes(files: Files, name: string, o: Outcomes) {
    !There(files, name, o.statNewOk) && WriteWell(o) && o.adaptOk
  }

  lemma CreateRouteAnswers(files: Files, t: Target, guard: Guard, o: Outcomes)
    requires ValidTarget(t, guard)
    ensures var e := CreateRoute(files, t, guard, o).error;
      && (Stops(e) <==> !RouteComes(files, t.name, o))
      && (e == Some(ReloadFailed) <==> RouteComes(files, t.name, o) && !o.reloadOk)
      && (e == Some(Exists) <==> There(files, t.name, o.statNewOk))
      && (e == Some(AdaptFailed) <==> !There(files, t.name, o.statNewOk) && WriteWell(o) && !o.adaptOk)
      && (e == Some(IoError) <==> !There(files, t.name, o.statNewOk) && !WriteWell(o))
      && e != Some(NotFound) && e != Some(Invalid)
  {
    hide Rendered, FragmentDir.Create;
    CreateDoesExactly(files, t.name, true, Rendered(AppOf(t)), o);
  }

  /** A create goes through exactly if the target is valid, its name free, its route, if
      it wants one, gets into place, and the registry is saved; a failed reload is then
      still reported. Each error means its own reason; without success the registry is as
      before, and the directory too if no file operation failed. */
  lemma CreateAnswers(s: Store, t: Target, guard: Guard, o: CallOutcomes)
    ensures var (after, err) := CreateTarget(s, t, guard, o);
      var goes := ValidTarget(t, guard) && !Registered(s.targets, t.name);
      var routed := UsesAppRoute(t) ==> RouteComes(s.files, t.name, o.first);
      var reloaded := UsesAppRoute(t) ==> o.first.reloadOk;
      && (err == None <==> goes && routed && o.saveOk && reloaded)
      && (err == Some(RouteError(ReloadFailed)) <==> goes && routed && o.saveOk && !reloaded)
      && (err == Some(SaveFailed) <==> goes && routed && !o.saveOk)
      && (err == Some(RouteError(Exists)) <==> goes && UsesAppRoute(t) && There(s.files, t.name, o.first.statNewOk))
      && (err == Some(BadTarget) <==> !ValidTarget(t, guard))
      && (err == Some(TargetExists) <==> ValidTarget(t, guard) && Registered(s.targets, t.name))
      && (!Succeeds(err) ==> after.targets == s.targets && (QuietCall(o) ==> after.files == s.files))
  {
    hide ValidTarget, CreateRoute, RouteComes, Rendered, Sorted;
    if ValidTarget(t, guard) {
      CreateRouteAnswers(s.files, t, guard, o.first);
      CreateRouteEffect(s.files, t, guard, o.first);
      if UsesAppRoute(t) && RouteComes(s.files, t.name, o.first) && QuietCall(o) {
        RolledBack(s.files, t, guard, o);
      }
    }
  }

  lemma RolledBack(files: Files, t: Target, guard: Guard, o: CallOutcomes)
    requires ValidTarget(t, guard) && RouteComes(files, t.name, o.first) && QuietCall(o)
    ensures var f1 := files[t.name := Rendered(AppOf(t))];
      Final(f1, FragmentDir.Delete(f1, t.name, ValidName(t.name), o.second)) == files
  {
    hide Rendered, FragmentDir.Delete;
    var f1 := files[t.name := Rendered(AppOf(t))];
    DeleteRouteEffect(f1, t.name, o.second);
    assert f1 - {t.name} == files;
  }

  /** The old fragment goes, if it is seen to be there. */
  predicate RouteGoes(files: Files, name: string, o: Outcomes) {
    There(files, name, o.statOldOk) ==> o.removeOk && o.adaptOk
  }

  /** The change of routes an update needs is brought to its end. */
  predicate RouteFollows(files: Files, stored: Target, t: Target, o: CallOutcomes) {
    if UsesAppRoute(stored) && UsesAppRoute(t) then
      if There(files, stored.name, o.first.statOldOk) then
        && (t.name == stored.name || !There(files, t.name, o.first.statNewOk))
        && WriteWell(o.first) && o.first.adaptOk && (t.name == stored.name || o.first.removeOk)
      else RouteComes(files, t.name, o.second)
    else if UsesAppRoute(stored) then RouteGoes(files, stored.name, o.first)
    else UsesAppRoute(t) ==> RouteComes(files, t.name, o.first)
  }

  /** And is then reloaded, where there was a change. */
  predicate RouteReloads(files: Files, stored: Target, t: Target, o: CallOutcomes) {
    if UsesAppRoute(stored) && !There(files, stored.name, o.first.statOldOk) then UsesAppRoute(t) ==> o.second.reloadOk
    else UsesAppRoute(stored) || UsesAppRoute(t) ==> o.first.reloadOk
  }

  lemma BringAlongAnswers(files: Files, stored: Target, t: Target, guard: Guard, o: CallOutcomes)
    requires ValidTarget(t, guard) && ValidName(stored.name)
    ensures var e := BringRouteAlong(files, stored, t, guard, o).error;
      && (Stops(e) <==> !RouteFollows(files, stored, t, o))
      && (e == Some(ReloadFailed) <==> RouteFollows(files, stored, t, o) && !RouteReloads(files, stored, t, o))
  {
    CreateRouteAnswers(files, t, guard, o.first);
    CreateRouteAnswers(files, t, guard, o.second);
    assert ValidName(t.name) && TargetCharset(t.target) && guard(t.target);
    hide Rendered, CreateRoute, FragmentDir.Update, FragmentDir.Delete, ValidTarget, ValidName, TargetCharset;
    UpdateDoesExactly(files, stored.name, t.name, true, Rendered(AppOf(t)), o.first);
    DeleteDoesExactly(files, stored.name, true, o.first);
  }

  /** The same for an update of the target called oldName. */
  lemma UpdateAnswers(s: Store, oldName: string, t: Target, guard: Guard, o: CallOutcomes)
    requires forall x :: x in s.targets ==> ValidTarget(x, guard)
    ensures var (after, err) := UpdateTarget(s, oldName, t, guard, o);
      var i := IndexOf(s.targets, oldName);
      var goes := ValidTarget(t, guard) && Registered(s.targets, oldName)
                  && (t.name == oldName || !Registered(s.targets, t.name));
      && (err == None <==> goes && RouteFollows(s.files, s.targets[i], t, o) && o.saveOk
                           && RouteReloads(s.files, s.targets[i], t, o))
      && (err == Some(RouteError(ReloadFailed)) <==>
            goes && RouteFollows(s.files, s.targets[i], t, o) && o.saveOk && !RouteReloads(s.files, s.targets[i], t, o))
      && (err == Some(SaveFailed) <==> goes && RouteFollows(s.files, s.targets[i], t, o) && !o.saveOk)
      && (err == Some(BadTarget) <==> !ValidTarget(t, guard))
      && (err == Some(TargetNotFound) <==> ValidTarget(t, guard) && !Registered(s.targets, oldName))
      && (err == Some(TargetExists) <==>
            ValidTarget(t, guard) && Registered(s.targets, oldName) && t.name != oldName && Registered(s.targets, t.name))
      && (!Succeeds(err) ==> after.targets == s.targets)
  {
    hide ValidTarget, ValidName, BringRouteAlong, RouteFollows, RouteReloads, Sorted;
    var i := IndexOf(s.targets, oldName);
    if ValidTarget(t, guard) && i >= 0 {
      NamesAreValid(s, guard);
      BringAlongAnswers(s.files, s.targets[i], t, guard, o);
    }
  }

  /** And for a delete. */
  lemma DeleteAnswers(s: Store, name: string, guard: Guard, o: CallOutcomes)
    requires forall x :: x in s.targets ==> ValidTarget(x, guard)
    ensures var (after, err) := DeleteTarget(s, name, o);
      var i := IndexOf(s.targets, name);
      var goes := Registered(s.targets, name);
      var routed := goes && UsesAppRoute(s.targets[i]) ==> RouteGoes(s.files, name, o.first);
      var reloaded := goes && UsesAppRoute(s.targets[i]) && There(s.files, name, o.first.statOldOk) ==> o.first.reloadOk;
      && (err == None <==> goes && routed && o.saveOk && reloaded)
      && (err == Some(RouteError(ReloadFailed)) <==> goes && routed && o.saveOk && !reloaded)
      && (err == Some(SaveFailed) <==> goes && routed && !o.saveOk)
      && (err == Some(TargetNotFound) <==> !goes)
      && (!Succeeds(err) ==> after.targets == s.targets)
  {
    hide ValidTarget, ValidName, FragmentDir.Delete, Sorted;
    NamesAreValid(s, guard);
    DeleteDoesExactly(s.files, name, true, o.first);
  }
}
