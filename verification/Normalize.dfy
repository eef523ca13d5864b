/** The startup pass that rewrites fragments in an older spelling
    (backend/internal/devproxy/normalize.go, backend/internal/approutes/normalize.go). */
module Normalize {
  import opened Options
  import opened Text
  import opened ForwardAuth
  import opened FragmentDir
  import DP = DevProxy
  import DevProxyParser
  import DevProxyTheorems
  import AR = AppRoutes
  import AppRoutesTheorems

  /** What a package prints for a fragment that parses; None for raw text. */
  type Rerender = (string, string) -> Option<string>

  function DevProxyRerender(name: string, content: string): Option<string> {
    match DevProxyParser.Parse(name, content)
    case None => None
    case Some(e) => Some(DP.Rendered(e))
  }

  function AppRoutesRerender(name: string, content: string): Option<string> {
    match AR.Parse(name, content)
    case None => None
    case Some(a) => Some(AR.Rendered(a))
  }

  function NormalizedText(r: Rerender, name: string, content: string): string {
    match r(name, content)
    case None => content
    case Some(t) => t
  }

  /** The file the pass leaves in place of name, unless it could not be read. */
  predicate Settled(r: Rerender, before: Files, after: Files, name: string, unreadable: set<string>) {
    name in before ==>
      Lookup(after, name) == Some(if name in unreadable then before[name] else NormalizedText(r, name, before[name]))
  }

  function ChangedNames(r: Rerender, files: Files, names: seq<string>, unreadable: set<string>): seq<string> {
    if names == [] then []
    else
      var n := names[|names| - 1];
      ChangedNames(r, files, names[..|names| - 1], unreadable)
      + if n in files && n !in unreadable && NormalizedText(r, n, files[n]) != files[n] then [n] else []
  }

  predicate AllSettled(r: Rerender, before: Files, after: Files, names: seq<string>, unreadable: set<string>) {
    forall i :: 0 <= i < |names| ==> Settled(r, before, after, names[i], unreadable)
  }

  ghost predicate SameOutside(before: Files, after: Files, names: seq<string>) {
    forall n :: n !in names ==> Lookup(after, n) == Lookup(before, n)
  }

  /** Normalize over the directory's listing. `done` of its names were dealt with: all of
      them, or all before the one whose rewriting failed. */
  method NormalizeAll(dir: Dir, r: Rerender, names: seq<string>, unreadable: set<string>, writes: map<string, WriteResult>)
      returns (changed: seq<string>, done: nat)
    requires forall i, j :: 0 <= i < j < |names| ==> names[i] != names[j]
    requires forall i :: 0 <= i < |names| ==> names[i] in dir.files
    modifies dir
    ensures done <= |names|
    ensures changed == ChangedNames(r, old(dir.files), names[..done], unreadable)
    ensures AllSettled(r, old(dir.files), dir.files, names[..done], unreadable)
    ensures SameOutside(old(dir.files), dir.files, if done < |names| then names[..done + 1] else names)
    ensures done < |names| ==> names[done] in writes && writes[names[done]].WriteFailed?
                               && Lookup(dir.files, names[done]) == writes[names[done]].left
  {
    changed := [];
    done := 0;
    NothingChanged(r, dir.files, unreadable);
    hide NormalizedText, Settled, ChangedNames, AllSettled, SameOutside;
    while done < |names|
      invariant done <= |names|
      invariant changed == ChangedNames(r, old(dir.files), names[..done], unreadable)
      invariant AllSettled(r, old(dir.files), dir.files, names[..done], unreadable)
      invariant SameOutside(old(dir.files), dir.files, names[..done])
    {
      var name := names[done];
      ghost var was, before, first := old(dir.files), dir.files, names[..done];
      assert name !in first && names[..done + 1] == first + [name];
      OutsideIsSame(was, before, first, name);
      var rewrote, ok := NormalizeOne(dir, r, name, unreadable, if name in writes then writes[name] else Wrote);
      ChangedByOne(r, was, before, first, name, unreadable);
      OneMore(r, was, before, dir.files, first, name, unreadable);
      if !ok {
        return;
      }
      if rewrote {
        changed := changed + [name];
      }
      done := done + 1;
    }
    assert names[..done] == names;
  }

  lemma OutsideIsSame(before: Files, after: Files, names: seq<string>, name: string)
    requires SameOutside(before, after, names) && name !in names
    ensures Lookup(after, name) == Lookup(before, name) && (name in before <==> name in after)
  {
  }

  lemma OneMore(r: Rerender, was: Files, before: Files, after: Files, names: seq<string>, name: string, unreadable: set<string>)
    requires AllSettled(r, was, before, names, unreadable) && SameOutside(was, before, names) && name !in names
    requires forall n :: n != name ==> Lookup(after, n) == Lookup(before, n)
    ensures AllSettled(r, was, after, names, unreadable) && SameOutside(was, after, names + [name])
    ensures Settled(r, before, after, name, unreadable) ==> AllSettled(r, was, after, names + [name], unreadable)
  {
  }

  lemma NothingChanged(r: Rerender, files: Files, unreadable: set<string>)
    ensures ChangedNames(r, files, [], unreadable) == []
  {
  }

  lemma ChangedByOne(r: Rerender, before: Files, now: Files, names: seq<string>, name: string, unreadable: set<string>)
    requires Lookup(now, name) == Lookup(before, name)
    ensures ChangedNames(r, before, names + [name], unreadable)
         == ChangedNames(r, before, names, unreadable) + ChangedNames(r, now, [name], unreadable)
    ensures ChangedNames(r, now, [name], unreadable) == [] || ChangedNames(r, now, [name], unreadable) == [name]
  {
    hide NormalizedText;
    var all := names + [name];
    assert all[..|all| - 1] == names && all[|all| - 1] == name;
    assert [name][..0] == [];
    assert ChangedNames(r, now, [], unreadable) == [];
  }

  /** The body of the loop. */
  method NormalizeOne(dir: Dir, r: Rerender, name: string, unreadable: set<string>, write: WriteResult)
      returns (rewrote: bool, ok: bool)
    requires name in dir.files
    modifies dir
    ensures forall n :: n != name ==> Lookup(dir.files, n) == Lookup(old(dir.files), n)
    ensures ok ==> Settled(r, old(dir.files), dir.files, name, unreadable)
    ensures ok ==> (rewrote <==> [name] == ChangedNames(r, old(dir.files), [name], unreadable))
    ensures !ok ==> write.WriteFailed? && Lookup(dir.files, name) == write.left
  {
    if name in unreadable {
      return false, true;
    }
    var rendered := r(name, dir.files[name]);
    if rendered == None || rendered.value == dir.files[name] {
      return false, true;
    }
    ok := dir.WriteFile(name, rendered.value, write);
    rewrote := ok;
  }

  /** Printed text prints as itself. */
  ghost predicate Settles(r: Rerender) {
    forall name, content :: r(name, content).Some? ==> r(name, r(name, content).value) == r(name, content)
  }

  lemma DevProxySettles()
    ensures Settles(DevProxyRerender)
  {
    forall name, content | DevProxyRerender(name, content).Some?
      ensures DevProxyRerender(name, DevProxyRerender(name, content).value) == DevProxyRerender(name, content)
    {
      DevProxyTheorems.ParsePrintParse(name, content);
    }
  }

  lemma AppRoutesSettles()
    ensures Settles(AppRoutesRerender)
  {
    forall name, content | AppRoutesRerender(name, content).Some?
      ensures AppRoutesRerender(name, AppRoutesRerender(name, content).value) == AppRoutesRerender(name, content)
    {
      AppRoutesTheorems.ParsePrintParse(name, content);
    }
  }

  /** A second pass rewrites exactly the files that the first one could not read, that it
      can, and that need it; all others it leaves alone. */
  lemma {:induction false} SecondPassExactly(r: Rerender, before: Files, after: Files, names: seq<string>,
                                                    unreadable: set<string>, unreadable': set<string>)
    requires r == DevProxyRerender || r == AppRoutesRerender
    requires AllSettled(r, before, after, names, unreadable)
    requires forall n :: n in after ==> n in before
    ensures forall n :: n in ChangedNames(r, after, names, unreadable') <==>
      n in names && n in after && n in unreadable && n !in unreadable' && NormalizedText(r, n, before[n]) != before[n]
  {
    if names != [] {
      var n, rest := names[|names| - 1], names[..|names| - 1];
      assert names == rest + [n];
      assert Settled(r, before, after, n, unreadable);
      SecondPassExactly(r, before, after, rest, unreadable, unreadable');
      if n in after {
        NormalizedSettles(r, n, before[n]);
      }
      hide NormalizedText;
    }
  }

  lemma NormalizedSettles(r: Rerender, name: string, content: string)
    requires r == DevProxyRerender || r == AppRoutesRerender
    ensures NormalizedText(r, name, NormalizedText(r, name, content)) == NormalizedText(r, name, content)
  {
    DevProxySettles();
    AppRoutesSettles();
    hide DevProxyRerender, AppRoutesRerender;
  }

  /** Normalizing keeps what a fragment means and how much of it is behind a login. */
  lemma NormalizingKeepsMeaning(name: string, content: string)
    ensures DevProxyParser.Parse(name, NormalizedText(DevProxyRerender, name, content)) == DevProxyParser.Parse(name, content)
    ensures AR.Parse(name, NormalizedText(AppRoutesRerender, name, content)) == AR.Parse(name, content)
    ensures DevProxyParser.Parse(name, content).Some? ==>
      CountForwardAuth(Split(NormalizedText(DevProxyRerender, name, content))) == CountForwardAuth(Split(content))
    ensures AR.Parse(name, content).Some? ==>
      CountForwardAuth(Split(NormalizedText(AppRoutesRerender, name, content))) == CountForwardAuth(Split(content))
  {
    if DevProxyParser.Parse(name, content).Some? {
      DevProxyTheorems.ParsePrintParse(name, content);
      DevProxyTheorems.PrintKeepsAuth(name, content);
    }
    if AR.Parse(name, content).Some? {
      AppRoutesTheorems.ParsePrintParse(name, content);
      AppRoutesTheorems.ParsedAuthIsThere(name, content);
      AppRoutesTheorems.ParsedAuthIsThere(name, AR.Rendered(AR.Parse(name, content).value));
    }
  }

  /** Text that does not parse is left as it is. */
  lemma RawTextIsKept(name: string, content: string)
    ensures DevProxyParser.Parse(name, content).None? ==> NormalizedText(DevProxyRerender, name, content) == content
    ensures AR.Parse(name, content).None? ==> NormalizedText(AppRoutesRerender, name, content) == content
  {
    hide DevProxyParser.Parse, AR.Parse;
  }

  /** All spellings of one expose become one text, and spellings of different exposes
      different texts. */
  lemma OneTextPerExpose(name: string, a: string, b: string, e: DP.Expose, f: DP.Expose)
    requires DevProxyTheorems.SpelledBy(name, a, e) && DevProxyTheorems.SpelledBy(name, b, f)
    ensures NormalizedText(DevProxyRerender, name, a) == DP.Rendered(e)
    ensures NormalizedText(DevProxyRerender, name, a) == NormalizedText(DevProxyRerender, name, b) <==> e == f
  {
    hide DP.Rendered, DevProxyParser.Parse, DevProxyTheorems.SpelledBy;
    DevProxyTheorems.AcceptedLanguage(name, a, e);
    DevProxyTheorems.AcceptedLanguage(name, b, f);
    DevProxyTheorems.ParsePrintParse(name, a);
    DevProxyTheorems.ParsePrintParse(name, b);
  }

  lemma OneTextPerApp(name: string, a: string, b: string, e: AR.App, f: AR.App)
    requires AppRoutesTheorems.SpelledBy(name, a, e) && AppRoutesTheorems.SpelledBy(name, b, f)
    ensures NormalizedText(AppRoutesRerender, name, a) == AR.Rendered(e)
    ensures NormalizedText(AppRoutesRerender, name, a) == NormalizedText(AppRoutesRerender, name, b) <==> e == f
  {
    hide AR.Rendered, AR.Parse, AppRoutesTheorems.SpelledBy;
    AppRoutesTheorems.AcceptedLanguage(name, a, e);
    AppRoutesTheorems.AcceptedLanguage(name, b, f);
    AppRoutesTheorems.ParsePrintParse(name, a);
    AppRoutesTheorems.ParsePrintParse(name, b);
  }
}
