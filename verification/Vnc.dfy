/** The VNC target registry and the App Routes it keeps in lockstep
    (backend/internal/vnc/vnc.go). */
module Vnc {
  import opened Options
  import opened FragmentDir
  import opened Validate
  import opened AppRoutes

  datatype Target = Target(name: string, caption: string, target: string, backend: string,
                           requireAuth: bool, resizeMode: string)

  /** The registry file and the directory of App Route fragments. */
  datatype Store = Store(targets: seq<Target>, files: Files)

  datatype VncError = BadTarget | TargetExists | TargetNotFound | SaveFailed | RouteError(error: Error)

  /** How one call's steps outside the program end: its first App Routes operation, the
      second one (the re-creation after NotFound, or the rollback), and the save. */
  datatype CallOutcomes = CallOutcomes(first: Outcomes, second: Outcomes, saveOk: bool)

  /** Which targets targetguard admits: fixed for the life of the process. */
  type Guard = string -> bool

  predicate UsesAppRoute(t: Target) {
    t.backend == "novnc"
  }

  function Utf8Length(s: string): nat {
    if s == "" then 0
    else (if s[0] < '\U{80}' then 1 else if s[0] < '\U{800}' then 2 else if s[0] < '\U{10000}' then 3 else 4)
         + Utf8Length(s[1..])
  }

  predicate ValidTarget(t: Target, guard: Guard) {
    && ValidName(t.name)
    && (t.backend == "rfb" || t.backend == "novnc")
    && t.resizeMode in {"", "remote", "scale", "off"}
    && (t.requireAuth ==> UsesAppRoute(t))
    && Utf8Length(t.caption) <= 200
    && (forall i :: 0 <= i < |t.caption| ==> t.caption[i] >= ' ' && t.caption[i] != '\U{7F}')
    && TargetCharset(t.target) && guard(t.target)
  }

  function AppOf(t: Target): App {
    App(t.name, t.target, t.requireAuth)
  }

  function IndexOf(ts: seq<Target>, name: string): (i: int)
    ensures -1 <= i < |ts|
    ensures i >= 0 ==> ts[i].name == name && forall j :: 0 <= j < i ==> ts[j].name != name
    ensures i < 0 ==> forall j :: 0 <= j < |ts| ==> ts[j].name != name
  {
    if ts == [] then -1
    else if ts[0].name == name then 0
    else
      var i := IndexOf(ts[1..], name);
      assert forall j :: 1 <= j < |ts| ==> ts[j] == ts[1..][j - 1];
      if i < 0 then -1 else i + 1
  }

  /** Go's string order. */
  predicate Less(a: string, b: string) {
    b != "" && (a == "" || a[0] < b[0] || (a[0] == b[0] && Less(a[1..], b[1..])))
  }

  function Insert(t: Target, ts: seq<Target>): seq<Target> {
    if ts == [] || Less(t.name, ts[0].name) then [t] + ts else [ts[0]] + Insert(t, ts[1..])
  }

  /** save's sort by name. */
  function Sorted(ts: seq<Target>): seq<Target> {
    if ts == [] then [] else Insert(ts[|ts| - 1], Sorted(ts[..|ts| - 1]))
  }

  function ErrorOf(e: Option<Error>): Option<VncError> {
    match e
    case None => None
    case Some(x) => Some(RouteError(x))
  }

  predicate Stops(e: Option<Error>) {
    e.Some? && !e.value.ReloadFailed?
  }

  function CreateRoute(files: Files, t: Target, guard: Guard, o: Outcomes): Effect {
    FragmentDir.Create(files, t.name, ValidName(t.name) && TargetCharset(t.target) && guard(t.target), Rendered(AppOf(t)), o)
  }

  function CreateTarget(s: Store, t: Target, guard: Guard, o: CallOutcomes): (Store, Option<VncError>) {
    if !ValidTarget(t, guard) then (s, Some(BadTarget))
    else if IndexOf(s.targets, t.name) >= 0 then (s, Some(TargetExists))
    else
      var route := if UsesAppRoute(t) then CreateRoute(s.files, t, guard, o.first) else Effect([], None);
      var f1 := Final(s.files, route);
      if Stops(route.error) then (s.(files := f1), ErrorOf(route.error))
      else if o.saveOk then (Store(Sorted(s.targets + [t]), f1), ErrorOf(route.error))
      else if UsesAppRoute(t) then
        (s.(files := Final(f1, FragmentDir.Delete(f1, t.name, ValidName(t.name), o.second))), Some(SaveFailed))
      else (s, Some(SaveFailed))
  }

  /** Update's switch over whether a route existed and whether one is wanted. */
  function BringRouteAlong(files: Files, stored: Target, t: Target, guard: Guard, o: CallOutcomes): Effect {
    if UsesAppRoute(stored) && UsesAppRoute(t) then
      var e := FragmentDir.Update(files, stored.name, t.name, ValidName(t.name) && TargetCharset(t.target) && guard(t.target),
                                  Rendered(AppOf(t)), o.first);
      if e.error == Some(NotFound) then CreateRoute(Final(files, e), t, guard, o.second) else e
    else if UsesAppRoute(stored) then
      var e := FragmentDir.Delete(files, stored.name, ValidName(stored.name), o.first);
      if e.error == Some(NotFound) then Effect(e.states, None) else e
    else if UsesAppRoute(t) then CreateRoute(files, t, guard, o.first)
    else Effect([], None)
  }

  function UpdateTarget(s: Store, oldName: string, t: Target, guard: Guard, o: CallOutcomes): (Store, Option<VncError>) {
    var i := IndexOf(s.targets, oldName);
    if !ValidTarget(t, guard) then (s, Some(BadTarget))
    else if i < 0 then (s, Some(TargetNotFound))
    else if t.name != oldName && IndexOf(s.targets, t.name) >= 0 then (s, Some(TargetExists))
    else
      var route := BringRouteAlong(s.files, s.targets[i], t, guard, o);
      var f1 := Final(s.files, route);
      if Stops(route.error) then (s.(files := f1), ErrorOf(route.error))
      else if !o.saveOk then (s.(files := f1), Some(SaveFailed))
      else (Store(Sorted(s.targets[i := t]), f1), ErrorOf(route.error))
  }

  function DeleteTarget(s: Store, name: string, o: CallOutcomes): (Store, Option<VncError>) {
    var i := IndexOf(s.targets, name);
    if i < 0 then (s, Some(TargetNotFound))
    else
      var left := s.targets[..i] + s.targets[i + 1..];
      if !UsesAppRoute(s.targets[i]) then
        if o.saveOk then (s.(targets := Sorted(left)), None) else (s, Some(SaveFailed))
      else
        var e := FragmentDir.Delete(s.files, name, ValidName(name), o.first);
        var f1 := Final(s.files, e);
        if Stops(e.error) && e.error != Some(NotFound) then (s.(files := f1), ErrorOf(e.error))
        else if !o.saveOk then (s.(files := f1), Some(SaveFailed))
        else (Store(Sorted(left), f1), if e.error == Some(NotFound) then None else ErrorOf(e.error))
  }

  /** routeState against the directory's own listing. */
  function RouteState(files: Files, t: Target): (bool, bool) {
    if !UsesAppRoute(t) then (false, false)
    else if t.name !in files then (true, false)
    else
      match AppRoutes.Parse(t.name, files[t.name])
      case None => (false, true)
      case Some(a) => (false, a.target != t.target || a.requireAuth != t.requireAuth)
  }

  datatype Call =
    | CreateCall(t: Target, o: CallOutcomes)
    | UpdateCall(oldName: string, t: Target, o: CallOutcomes)
    | DeleteCall(name: string, o: CallOutcomes)

  function Perform(s: Store, c: Call, guard: Guard): (Store, Option<VncError>) {
    match c
    case CreateCall(t, o) => CreateTarget(s, t, guard, o)
    case UpdateCall(n, t, o) => UpdateTarget(s, n, t, guard, o)
    case DeleteCall(n, o) => DeleteTarget(s, n, o)
  }

  // ------------------------------------------------------------- on the heap

  /** The package's state: the registry file, under its mutex, and the App Routes directory. */
  class Registry {
    var targets: seq<Target>
    const routes: Dir

    constructor (routes: Dir)
      ensures this.routes == routes && targets == []
    {
      targets := [];
      this.routes := routes;
    }

    ghost function Contents(): Store
      reads this, routes
    {
      Store(targets, routes.files)
    }

    method Save(ts: seq<Target>, saveOk: bool) returns (err: Option<VncError>)
      modifies this
      ensures targets == if saveOk then Sorted(ts) else old(targets)
      ensures err == if saveOk then None else Some(SaveFailed)
    {
      if !saveOk {
        return Some(SaveFailed);
      }
      targets := Sorted(ts);
      return None;
    }

    method DoCreate(t: Target, guard: Guard, o: CallOutcomes) returns (err: Option<VncError>)
      modifies this, routes
      ensures (Contents(), err) == CreateTarget(old(Contents()), t, guard, o)
    {
      if !ValidTarget(t, guard) {
        return Some(BadTarget);
      }
      if IndexOf(targets, t.name) >= 0 {
        return Some(TargetExists);
      }
      var createErr: Option<Error> := None;
      if UsesAppRoute(t) {
        createErr := DoCreateRoute(t, guard, o.first);
        if Stops(createErr) {
          return ErrorOf(createErr);
        }
      }
      err := Save(targets + [t], o.saveOk);
      if err.Some? {
        if UsesAppRoute(t) {
          var _ := routes.DoDelete(t.name, ValidName(t.name), o.second);
        }
        return;
      }
      return ErrorOf(createErr);
    }

    method DoCreateRoute(t: Target, guard: Guard, o: Outcomes) returns (err: Option<Error>)
      modifies routes
      ensures routes.Did(old(routes.files), old(routes.states), CreateRoute(old(routes.files), t, guard, o))
      ensures err == CreateRoute(old(routes.files), t, guard, o).error
    {
      var text := AppRoutes.Render(AppOf(t));
      err := routes.DoCreate(t.name, ValidName(t.name) && TargetCharset(t.target) && guard(t.target), text, o);
    }

    /** Update's switch. */
    method DoBringRouteAlong(stored: Target, t: Target, guard: Guard, o: CallOutcomes) returns (updateErr: Option<Error>)
      modifies routes
      ensures routes.files == Final(old(routes.files), BringRouteAlong(old(routes.files), stored, t, guard, o))
      ensures updateErr == BringRouteAlong(old(routes.files), stored, t, guard, o).error
    {
      var had, wants := UsesAppRoute(stored), UsesAppRoute(t);
      updateErr := None;
      if had && wants {
        var text := AppRoutes.Render(AppOf(t));
        updateErr := routes.DoUpdate(stored.name, t.name, ValidName(t.name) && TargetCharset(t.target) && guard(t.target), text, o.first);
        if updateErr == Some(NotFound) {
          updateErr := DoCreateRoute(t, guard, o.second);
        }
      } else if had {
        updateErr := routes.DoDelete(stored.name, ValidName(stored.name), o.first);
        if updateErr == Some(NotFound) {
          updateErr := None;
        }
      } else if wants {
        updateErr := DoCreateRoute(t, guard, o.first);
      }
    }

    method DoUpdate(oldName: string, t: Target, guard: Guard, o: CallOutcomes) returns (err: Option<VncError>)
      modifies this, routes
      ensures (Contents(), err) == UpdateTarget(old(Contents()), oldName, t, guard, o)
    {
      if !ValidTarget(t, guard) {
        return Some(BadTarget);
      }
      var i := IndexOf(targets, oldName);
      if i < 0 {
        return Some(TargetNotFound);
      }
      if t.name != oldName && IndexOf(targets, t.name) >= 0 {
        return Some(TargetExists);
      }
      var updateErr := DoBringRouteAlong(targets[i], t, guard, o);
      if Stops(updateErr) {
        return ErrorOf(updateErr);
      }
      err := Save(targets[i := t], o.saveOk);
      if err.Some? {
        return;
      }
      return ErrorOf(updateErr);
    }

    method DoDelete(name: string, o: CallOutcomes) returns (err: Option<VncError>)
      modifies this, routes
      ensures (Contents(), err) == DeleteTarget(old(Contents()), name, o)
    {
      hide Sorted, ValidName, FragmentDir.Delete;
      var i := IndexOf(targets, name);
      if i < 0 {
        return Some(TargetNotFound);
      }
      if !UsesAppRoute(targets[i]) {
        err := Save(targets[..i] + targets[i + 1..], o.saveOk);
        return;
      }
      var deleteErr := routes.DoDelete(name, ValidName(name), o.first);
      if Stops(deleteErr) && deleteErr != Some(NotFound) {
        return ErrorOf(deleteErr);
      }
      if deleteErr == Some(NotFound) {
        deleteErr := None;
      }
      err := Save(targets[..i] + targets[i + 1..], o.saveOk);
      if err.Some? {
        return;
      }
      return ErrorOf(deleteErr);
    }
  }
}
