/** When the operations on a fragment directory succeed, what each error says, and what is
    in the file afterwards (backend/internal/approutes/approutes.go and, line for line,
    backend/internal/devproxy/devproxy.go). */
module FragmentEffects {
  import opened Options
  import opened FragmentDir

  predicate WriteWell(o: Outcomes) {
    o.mkdirOk && o.write.Wrote?
  }

  /** The new content is in place when the operation ends: with success, or with only the
      reload missing. */
  predicate InPlace(e: Effect) {
    e.error == None || e.error == Some(ReloadFailed)
  }

  predicate There(files: Files, name: string, statOk: bool) {
    name in files && statOk
  }

  /** A create succeeds exactly if the name is valid and not seen to be taken and each
      call out goes well, and then the fragment holds the content it was given; each
      error means its own reason, and a refusal touches no file. */
  lemma CreateDoesExactly(files: Files, name: string, valid: bool, content: string, o: Outcomes)
    ensures var e := Create(files, name, valid, content, o);
      var goes := valid && !There(files, name, o.statNewOk);
      && (e.error == None <==> goes && WriteWell(o) && o.adaptOk && o.reloadOk)
      && (e.error == Some(ReloadFailed) <==> goes && WriteWell(o) && o.adaptOk && !o.reloadOk)
      && (e.error == Some(AdaptFailed) <==> goes && WriteWell(o) && !o.adaptOk)
      && (e.error == Some(IoError) <==> goes && !WriteWell(o))
      && (e.error == Some(Invalid) <==> !valid)
      && (e.error == Some(Exists) <==> valid && There(files, name, o.statNewOk))
      && (!goes ==> e.states == [])
      && (InPlace(e) ==> Final(files, e) == files[name := content])
  {
  }

  /** The same for an update, which needs the old name to be there and, to rename, the new
      one to be free; after a rename the old name is gone and nothing else has changed. */
  lemma UpdateDoesExactly(files: Files, was: string, name: string, valid: bool, content: string, o: Outcomes)
    ensures var e := Update(files, was, name, valid, content, o);
      var goes := valid && There(files, was, o.statOldOk) && (name == was || !There(files, name, o.statNewOk));
      var removed := name == was || o.removeOk;
      && (e.error == None <==> goes && WriteWell(o) && o.adaptOk && removed && o.reloadOk)
      && (e.error == Some(ReloadFailed) <==> goes && WriteWell(o) && o.adaptOk && removed && !o.reloadOk)
      && (e.error == Some(AdaptFailed) <==> goes && WriteWell(o) && !o.adaptOk)
      && (e.error == Some(IoError) <==> goes && (!WriteWell(o) || (o.adaptOk && !removed)))
      && (e.error == Some(Invalid) <==> !valid)
      && (e.error == Some(NotFound) <==> valid && !There(files, was, o.statOldOk))
      && (e.error == Some(Exists) <==>
            valid && There(files, was, o.statOldOk) && name != was && There(files, name, o.statNewOk))
      && (!goes ==> e.states == [])
      && (InPlace(e) ==> Final(files, e) == (if name == was then files else files - {was})[name := content])
  {
    if name != was {
      RenamedFiles(files, was, name, content);
    }
  }

  lemma RenamedFiles(files: Files, was: string, name: string, content: string)
    requires name != was
    ensures files[name := content] - {was} == (files - {was})[name := content]
  {
  }

  /** The same for the raw editor: what it is given ends up in the file as it is. */
  lemma UpdateRawDoesExactly(files: Files, name: string, valid: bool, raw: string, o: Outcomes)
    ensures var e := UpdateRaw(files, name, valid, raw, o);
      var goes := valid && There(files, name, o.statOldOk);
      && (e.error == None <==> goes && WriteWell(o) && o.adaptOk && o.reloadOk)
      && (e.error == Some(ReloadFailed) <==> goes && WriteWell(o) && o.adaptOk && !o.reloadOk)
      && (e.error == Some(AdaptFailed) <==> goes && WriteWell(o) && !o.adaptOk)
      && (e.error == Some(IoError) <==> goes && !WriteWell(o))
      && (e.error == Some(Invalid) <==> !valid)
      && (e.error == Some(NotFound) <==> valid && !There(files, name, o.statOldOk))
      && (!goes ==> e.states == [])
      && (InPlace(e) ==> Final(files, e) == files[name := raw])
  {
  }

  /** The same for a delete: the fragment is gone once it has been removed, also where the
      remaining configuration is then refused or not reloaded. */
  lemma DeleteDoesExactly(files: Files, name: string, valid: bool, o: Outcomes)
    ensures var e := Delete(files, name, valid, o);
      var goes := valid && There(files, name, o.statOldOk);
      && (e.error == None <==> goes && o.removeOk && o.adaptOk && o.reloadOk)
      && (e.error == Some(ReloadFailed) <==> goes && o.removeOk && o.adaptOk && !o.reloadOk)
      && (e.error == Some(AdaptFailed) <==> goes && o.removeOk && !o.adaptOk)
      && (e.error == Some(IoError) <==> goes && !o.removeOk)
      && (e.error == Some(Invalid) <==> !valid)
      && (e.error == Some(NotFound) <==> valid && !There(files, name, o.statOldOk))
      && Final(files, e) == (if goes && o.removeOk then files - {name} else files)
  {
  }

  // --------------------------------------------------------------- any run of calls

  datatype Request =
    | CreateOne(name: string, valid: bool, content: string)
    | UpdateOne(was: string, name: string, valid: bool, content: string)
    | UpdateRawOne(name: string, valid: bool, raw: string)
    | DeleteOne(name: string, valid: bool)

  datatype Attempt = Attempt(request: Request, outcomes: Outcomes)

  function Performed(files: Files, c: Attempt): Effect {
    match c.request
    case CreateOne(name, valid, content) => Create(files, name, valid, content, c.outcomes)
    case UpdateOne(was, name, valid, content) => Update(files, was, name, valid, content, c.outcomes)
    case UpdateRawOne(name, valid, raw) => UpdateRaw(files, name, valid, raw, c.outcomes)
    case DeleteOne(name, valid) => Delete(files, name, valid, c.outcomes)
  }

  function Left(files: Files, c: Attempt): Files {
    Final(files, Performed(files, c))
  }

  function RunCalls(files: Files, calls: seq<Attempt>): Files
    decreases |calls|
  {
    if calls == [] then files else RunCalls(Left(files, calls[0]), calls[1..])
  }

  /** What the directory is meant to be once a request has gone through. */
  function Meant(files: Files, r: Request): Files {
    match r
    case CreateOne(name, _, content) => files[name := content]
    case UpdateOne(was, name, _, content) => (if name == was then files else files - {was})[name := content]
    case UpdateRawOne(name, _, raw) => files[name := raw]
    case DeleteOne(name, _) => files - {name}
  }

  /** A call that reports an error before the reload has left the directory alone; the
      lemmas on all or nothing say when that is. */
  predicate NoTrace(files: Files, c: Attempt) {
    FailsEarly(Performed(files, c)) ==> Left(files, c) == files
  }

  predicate NoTraces(files: Files, calls: seq<Attempt>)
    decreases |calls|
  {
    calls == [] || (NoTrace(files, calls[0]) && NoTraces(Left(files, calls[0]), calls[1..]))
  }

  /** The requests that were reported as done, or lacking only the reload, in order. */
  function Reported(files: Files, calls: seq<Attempt>): seq<Request>
    decreases |calls|
  {
    if calls == [] then []
    else (if InPlace(Performed(files, calls[0])) then [calls[0].request] else [])
         + Reported(Left(files, calls[0]), calls[1..])
  }

  function MeantAll(files: Files, requests: seq<Request>): Files
    decreases |requests|
  {
    if requests == [] then files else MeantAll(Meant(files, requests[0]), requests[1..])
  }

  lemma CallMeans(files: Files, c: Attempt)
    requires InPlace(Performed(files, c))
    ensures Left(files, c) == Meant(files, c.request)
  {
    var o := c.outcomes;
    hide Create, Update, UpdateRaw, Delete;
    match c.request
    case CreateOne(name, valid, content) => CreateDoesExactly(files, name, valid, content, o);
    case UpdateOne(was, name, valid, content) => UpdateDoesExactly(files, was, name, valid, content, o);
    case UpdateRawOne(name, valid, raw) => UpdateRawDoesExactly(files, name, valid, raw, o);
    case DeleteOne(name, valid) => DeleteDoesExactly(files, name, valid, o);
  }

  /** The reports can be believed: after any sequence of calls whose failures left no
      trace, the directory is what the reported requests, in their order, make of it. */
  lemma {:induction false} ReportsAreTrue(files: Files, calls: seq<Attempt>)
    requires NoTraces(files, calls)
    ensures RunCalls(files, calls) == MeantAll(files, Reported(files, calls))
    decreases |calls|
  {
    hide Performed, Left, Meant, InPlace;
    if calls != [] {
      var c, rest := calls[0], calls[1..];
      var later := Reported(Left(files, c), rest);
      ReportsAreTrue(Left(files, c), rest);
      if InPlace(Performed(files, c)) {
        CallMeans(files, c);
        assert ([c.request] + later)[1..] == later;
      } else {
        FailedEarly(files, c);
        assert [] + later == later;
      }
    }
  }

  lemma FailedEarly(files: Files, c: Attempt)
    requires !InPlace(Performed(files, c)) && NoTrace(files, c)
    ensures Left(files, c) == files
  {
  }
}
