/** A directory of Caddy fragments and the operations on it that App Routes and Dev
    Proxy share line for line (backend/internal/approutes/approutes.go,
    backend/internal/devproxy/devproxy.go). A file is named without its ".caddy". */
module FragmentDir {
  import opened Options

  type Files = map<string, string>

  /** A failed os.WriteFile leaves the file with some content, or absent. */
  datatype WriteResult = Wrote | WriteFailed(left: Option<string>)

  /** How the calls out of the program end: the existence tests of the file that should
      be there and of the one that should not, reading the previous content, creating the
      directory, writing, `caddy adapt`, putting the previous content back, removing a
      file, `caddy reload`. */
  datatype Outcomes = Outcomes(statOldOk: bool, statNewOk: bool, readOk: bool, mkdirOk: bool, write: WriteResult,
                               adaptOk: bool, restore: WriteResult, removeOk: bool, reloadOk: bool)

  datatype Error = Invalid | Exists | NotFound | IoError | AdaptFailed | ReloadFailed

  /** What one operation does: the directory after each file operation, and the error. */
  datatype Effect = Effect(states: seq<Files>, error: Option<Error>)

  function Final(before: Files, e: Effect): Files {
    if e.states == [] then before else e.states[|e.states| - 1]
  }

  function Lookup(files: Files, name: string): Option<string> {
    if name in files then Some(files[name]) else None
  }

  function Put(files: Files, name: string, content: Option<string>): Files {
    match content
    case Some(c) => files[name := c]
    case None => files - {name}
  }

  /** The file a write was meant to leave with content. */
  function Written(files: Files, name: string, content: Option<string>, r: WriteResult): Files {
    match r
    case Wrote => Put(files, name, content)
    case WriteFailed(left) => Put(files, name, left)
  }

  /** os.Stat without an error: a test that fails for any reason counts as absence. */
  predicate Seen(files: Files, name: string, statOk: bool) {
    statOk && name in files
  }

  /** What writeAndValidate remembers of the file: nothing, if it cannot be read. */
  function Remembered(files: Files, name: string, o: Outcomes): Option<string> {
    if o.readOk then Lookup(files, name) else None
  }

  function WriteAndValidate(files: Files, name: string, content: string, o: Outcomes): Effect {
    if !o.mkdirOk then Effect([], Some(IoError))
    else
      var f1 := Written(files, name, Some(content), o.write);
      if o.write.WriteFailed? then Effect([f1], Some(IoError))
      else if o.adaptOk then Effect([f1], None)
      else Effect([f1, Written(f1, name, Remembered(files, name, o), o.restore)], Some(AdaptFailed))
  }

  function Reload(e: Effect, o: Outcomes): Effect {
    if e.error.Some? then e else Effect(e.states, if o.reloadOk then None else Some(ReloadFailed))
  }

  function Create(files: Files, name: string, valid: bool, content: string, o: Outcomes): Effect {
    if !valid then Effect([], Some(Invalid))
    else if Seen(files, name, o.statNewOk) then Effect([], Some(Exists))
    else Reload(WriteAndValidate(files, name, content, o), o)
  }

  function RemoveOld(files: Files, was: string, name: string, e: Effect, o: Outcomes): Effect {
    if e.error.Some? || name == was then e
    else if !o.removeOk then Effect(e.states, Some(IoError))
    else Effect(e.states + [Final(files, e) - {was}], None)
  }

  function Update(files: Files, was: string, name: string, valid: bool, content: string, o: Outcomes): Effect {
    if !valid then Effect([], Some(Invalid))
    else if !Seen(files, was, o.statOldOk) then Effect([], Some(NotFound))
    else if name != was && Seen(files, name, o.statNewOk) then Effect([], Some(Exists))
    else Reload(RemoveOld(files, was, name, WriteAndValidate(files, name, content, o), o), o)
  }

  function UpdateRaw(files: Files, name: string, valid: bool, raw: string, o: Outcomes): Effect {
    if !valid then Effect([], Some(Invalid))
    else if !Seen(files, name, o.statOldOk) then Effect([], Some(NotFound))
    else Reload(WriteAndValidate(files, name, raw, o), o)
  }

  function Delete(files: Files, name: string, valid: bool, o: Outcomes): Effect {
    if !valid then Effect([], Some(Invalid))
    else if !Seen(files, name, o.statOldOk) then Effect([], Some(NotFound))
    else if !o.removeOk then Effect([], Some(IoError))
    else
      var f1 := files - {name};
      if !o.adaptOk then Effect([f1], Some(AdaptFailed)) else Reload(Effect([f1], None), o)
  }

  // ------------------------------------------------------------- on the heap

  /** The directory itself. `states` records it after every file operation. */
  class Dir {
    var files: Files
    ghost var states: seq<Files>

    constructor (files: Files)
      ensures this.files == files && states == []
    {
      this.files := files;
      states := [];
    }

    method WriteFile(name: string, content: string, r: WriteResult) returns (ok: bool)
      modifies this
      ensures files == Written(old(files), name, Some(content), r) && states == old(states) + [files]
      ensures ok <==> r.Wrote?
    {
      match r {
        case Wrote =>
          files := files[name := content];
          ok := true;
        case WriteFailed(left) =>
          files := Put(files, name, left);
          ok := false;
      }
      states := states + [files];
    }

    method Remove(name: string)
      modifies this
      ensures files == old(files) - {name} && states == old(states) + [files]
    {
      files := files - {name};
      states := states + [files];
    }

    ghost predicate Did(before: Files, past: seq<Files>, e: Effect)
      reads this
    {
      files == Final(before, e) && states == past + e.states
    }

    method DoWriteAndValidate(name: string, content: string, o: Outcomes) returns (err: Option<Error>)
      modifies this
      ensures Did(old(files), old(states), WriteAndValidate(old(files), name, content, o))
      ensures err == WriteAndValidate(old(files), name, content, o).error
    {
      var previous := if o.readOk && name in files then Some(files[name]) else None;
      if !o.mkdirOk {
        return Some(IoError);
      }
      var ok := WriteFile(name, content, o.write);
      if !ok {
        return Some(IoError);
      }
      if !o.adaptOk {
        match (previous, o.restore) {
          case (Some(text), r) =>
            var _ := WriteFile(name, text, r);
          case (None, Wrote) =>
            Remove(name);
          case (None, WriteFailed(left)) =>
            files := Put(files, name, left);
            states := states + [files];
        }
        return Some(AdaptFailed);
      }
      return None;
    }

    method DoCreate(name: string, valid: bool, content: string, o: Outcomes) returns (err: Option<Error>)
      modifies this
      ensures Did(old(files), old(states), Create(old(files), name, valid, content, o))
      ensures err == Create(old(files), name, valid, content, o).error
    {
      if !valid {
        return Some(Invalid);
      }
      if Seen(files, name, o.statNewOk) {
        return Some(Exists);
      }
      err := DoWriteAndValidate(name, content, o);
      if err.None? && !o.reloadOk {
        err := Some(ReloadFailed);
      }
    }

    method DoUpdate(oldName: string, name: string, valid: bool, content: string, o: Outcomes) returns (err: Option<Error>)
      modifies this
      ensures Did(old(files), old(states), Update(old(files), oldName, name, valid, content, o))
      ensures err == Update(old(files), oldName, name, valid, content, o).error
    {
      if !valid {
        return Some(Invalid);
      }
      if !Seen(files, oldName, o.statOldOk) {
        return Some(NotFound);
      }
      var renaming := name != oldName;
      if renaming && Seen(files, name, o.statNewOk) {
        return Some(Exists);
      }
      err := DoWriteAndValidate(name, content, o);
      if err.Some? {
        return;
      }
      if renaming {
        if !o.removeOk {
          return Some(IoError);
        }
        Remove(oldName);
      }
      if !o.reloadOk {
        err := Some(ReloadFailed);
      }
    }

    method DoUpdateRaw(name: string, valid: bool, raw: string, o: Outcomes) returns (err: Option<Error>)
      modifies this
      ensures Did(old(files), old(states), UpdateRaw(old(files), name, valid, raw, o))
      ensures err == UpdateRaw(old(files), name, valid, raw, o).error
    {
      if !valid {
        return Some(Invalid);
      }
      if !Seen(files, name, o.statOldOk) {
        return Some(NotFound);
      }
      err := DoWriteAndValidate(name, raw, o);
      if err.None? && !o.reloadOk {
        err := Some(ReloadFailed);
      }
    }

    method DoDelete(name: string, valid: bool, o: Outcomes) returns (err: Option<Error>)
      modifies this
      ensures Did(old(files), old(states), Delete(old(files), name, valid, o))
      ensures err == Delete(old(files), name, valid, o).error
    {
      if !valid {
        return Some(Invalid);
      }
      if !Seen(files, name, o.statOldOk) {
        return Some(NotFound);
      }
      if !o.removeOk {
        return Some(IoError);
      }
      Remove(name);
      if !o.adaptOk {
        return Some(AdaptFailed);
      }
      return if o.reloadOk then None else Some(ReloadFailed);
    }
  }

  // ----------------------------------------------------------------- theorems

  /** A write that failed, or was taken back after a failed adapt, left what was there: a
      failed operation happened to, and a successful restore of a file that was there
      needs its content to have been read. */
  predicate WriteLeavesNoTrace(files: Files, name: string, o: Outcomes) {
    match o.write
    case WriteFailed(left) => left == Lookup(files, name)
    case Wrote =>
      match o.restore
      case WriteFailed(left) => left == Lookup(files, name)
      case Wrote => o.readOk || name !in files
  }

  predicate FailsEarly(e: Effect) {
    e.error.Some? && !e.error.value.ReloadFailed?
  }

  lemma PutEqual(files: Files, name: string, c: Option<string>)
    ensures Put(files, name, c) == files <==> c == Lookup(files, name)
  {
  }

  lemma WriteIsUndone(files: Files, name: string, content: string, o: Outcomes)
    requires WriteAndValidate(files, name, content, o).error.Some?
    ensures Final(files, WriteAndValidate(files, name, content, o)) == files
       <==> !o.mkdirOk || WriteLeavesNoTrace(files, name, o)
  {
    match o.write
    case WriteFailed(left) => PutEqual(files, name, left);
    case Wrote =>
      var c := if o.restore.Wrote? then Remembered(files, name, o) else o.restore.left;
      PutEqual(files, name, c);
      assert Put(files[name := content], name, c) == Put(files, name, c);
  }

  /** An update that fails before the reload leaves the directory as it was, except in
      exactly these cases: a failing write or restore left other content behind, the
      content to restore could not be read, or the old file of a rename could not be
      removed. */
  lemma UpdateIsAllOrNothing(files: Files, was: string, name: string, valid: bool, content: string, o: Outcomes)
    requires FailsEarly(Update(files, was, name, valid, content, o))
    ensures Final(files, Update(files, was, name, valid, content, o)) == files
       <==> !valid || !Seen(files, was, o.statOldOk) || (name != was && Seen(files, name, o.statNewOk)) || !o.mkdirOk
            || (WriteLeavesNoTrace(files, name, o) && !(o.write.Wrote? && o.adaptOk))
            || (o.write.Wrote? && o.adaptOk && Lookup(files, name) == Some(content))
  {
    var w := WriteAndValidate(files, name, content, o);
    if w.error.Some? {
      WriteIsUndone(files, name, content, o);
    } else if name != was {
      PutEqual(files, name, Some(content));
    }
  }

  lemma CreateIsAllOrNothing(files: Files, name: string, valid: bool, content: string, o: Outcomes)
    requires FailsEarly(Create(files, name, valid, content, o))
    ensures Final(files, Create(files, name, valid, content, o)) == files
       <==> !valid || Seen(files, name, o.statNewOk) || !o.mkdirOk || WriteLeavesNoTrace(files, name, o)
  {
    if WriteAndValidate(files, name, content, o).error.Some? {
      WriteIsUndone(files, name, content, o);
    }
  }

  lemma UpdateRawIsAllOrNothing(files: Files, name: string, valid: bool, raw: string, o: Outcomes)
    requires FailsEarly(UpdateRaw(files, name, valid, raw, o))
    ensures Final(files, UpdateRaw(files, name, valid, raw, o)) == files
       <==> !valid || !Seen(files, name, o.statOldOk) || !o.mkdirOk || WriteLeavesNoTrace(files, name, o)
  {
    if WriteAndValidate(files, name, raw, o).error.Some? {
      WriteIsUndone(files, name, raw, o);
    }
  }

  const ALL_WELL := Outcomes(true, true, true, true, Wrote, true, Wrote, true, true)

  /** Each of the four failures occurs, here in an update of the fragment "a" that ends
      in an error: a short write, ... */
  lemma ShortWriteLeavesATrace()
    ensures var files, o := map["a" := "old"], ALL_WELL.(write := WriteFailed(Some("ne")));
      var e := Update(files, "a", "a", true, "new", o);
      e.error == Some(IoError) && Final(files, e) == map["a" := "ne"]
  {
  }

  /** ... a failed restore after a failed adapt, ... */
  lemma FailedRestoreLeavesATrace()
    ensures var files, o := map["a" := "old"], ALL_WELL.(adaptOk := false, restore := WriteFailed(Some("")));
      var e := Update(files, "a", "a", true, "new", o);
      e.error == Some(AdaptFailed) && Final(files, e) == map["a" := ""]
  {
  }

  /** ... previous content that could not be read, where the working fragment is removed, ... */
  lemma UnreadableFragmentIsRemoved()
    ensures var files, o := map["a" := "old"], ALL_WELL.(readOk := false, adaptOk := false);
      var e := Update(files, "a", "a", true, "new", o);
      e.error == Some(AdaptFailed) && Final(files, e) == map[]
  {
  }

  /** ... and an old file that could not be removed, which leaves both. */
  lemma FailedRemovalLeavesBoth()
    ensures var files, o := map["a" := "old"], ALL_WELL.(removeOk := false);
      var e := Update(files, "a", "b", true, "new", o);
      e.error == Some(IoError) && Final(files, e) == map["a" := "old", "b" := "new"]
  {
  }

  /** Throughout a rename, whatever fails, the old fragment is there unchanged or the
      new one is there complete and accepted by `caddy adapt`. */
  lemma RenameNeverLosesTheFragment(files: Files, was: string, name: string, valid: bool, content: string, o: Outcomes, i: nat)
    requires was in files && name != was && i < |Update(files, was, name, valid, content, o).states|
    ensures var st := Update(files, was, name, valid, content, o).states[i];
      Lookup(st, was) == Some(files[was]) || (Lookup(st, name) == Some(content) && o.adaptOk)
  {
  }

  lemma WriteLeavesOthers(files: Files, name: string, content: string, o: Outcomes, other: string)
    requires other != name
    ensures Lookup(Final(files, WriteAndValidate(files, name, content, o)), other) == Lookup(files, other)
  {
  }

  /** No operation touches a file it was not asked about. */
  lemma OtherFilesUntouched(files: Files, was: string, name: string, valid: bool, content: string, o: Outcomes, other: string)
    requires other != was && other != name
    ensures Lookup(Final(files, Create(files, name, valid, content, o)), other) == Lookup(files, other)
    ensures Lookup(Final(files, Update(files, was, name, valid, content, o)), other) == Lookup(files, other)
    ensures Lookup(Final(files, UpdateRaw(files, name, valid, content, o)), other) == Lookup(files, other)
    ensures Lookup(Final(files, Delete(files, name, valid, o)), other) == Lookup(files, other)
  {
    WriteLeavesOthers(files, name, content, o, other);
    hide WriteAndValidate;
  }
}
