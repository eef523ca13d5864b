/** The manifest file: lines of "<name>\t<hash>" that Go code
    (backend/internal/dns/reconcile.go) and a shell script (config/dns/dns.default.sh)
    both read and write. */
module Manifest {
  import opened Options
  import opened Text
  import opened Numerals

  const BUILTIN := "builtin"

  function LineOf(name: string, hash: string): string {
    name + ['\t'] + hash
  }

  // ------------------------------------------------------------------- in Go

  function AddLine(m: map<string, string>, line: string): map<string, string> {
    match Cut(line, '\t')
    case None => m
    case Some((name, hash)) => if name == "" then m else m[name := hash]
  }

  function LoadLines(lines: seq<string>): map<string, string> {
    if lines == [] then map[] else AddLine(LoadLines(lines[..|lines| - 1]), lines[|lines| - 1])
  }

  function Load(text: string): map<string, string> {
    LoadLines(Split(text))
  }

  method LoadManifest(text: string) returns (m: map<string, string>)
    ensures m == Load(text)
  {
    var lines := Split(text);
    m := map[];
    for i := 0 to |lines|
      invariant m == LoadLines(lines[..i])
    {
      assert lines[..i + 1][..i] == lines[..i];
      match Cut(lines[i], '\t') {
        case None =>
        case Some((name, hash)) =>
          if name != "" {
            m := m[name := hash];
          }
      }
    }
    assert lines[..|lines|] == lines;
  }

  /** names lists the keys of m, each once, in some order. */
  predicate Enumerates(names: seq<string>, m: map<string, string>) {
    && (forall i, j :: 0 <= i < j < |names| ==> names[i] != names[j])
    && (forall i :: 0 <= i < |names| ==> names[i] in m)
    && (forall n :: n in m ==> n in names)
  }

  function LinesOf(names: seq<string>, m: map<string, string>): (lines: seq<string>)
    requires forall i :: 0 <= i < |names| ==> names[i] in m
    ensures |lines| == |names|
  {
    if names == [] then []
    else LinesOf(names[..|names| - 1], m) + [LineOf(names[|names| - 1], m[names[|names| - 1]])]
  }

  /** A text that SaveManifest can write for m: Go ranges over a map in any order. */
  ghost predicate IsSaved(text: string, m: map<string, string>) {
    exists names :: Enumerates(names, m) && text == Unlines(LinesOf(names, m))
  }

  method SaveManifest(m: map<string, string>) returns (text: string)
    ensures IsSaved(text, m)
  {
    text := "";
    var left := m.Keys;
    ghost var names: seq<string> := [];
    while left != {}
      invariant left <= m.Keys
      invariant forall i, j :: 0 <= i < j < |names| ==> names[i] != names[j]
      invariant forall i :: 0 <= i < |names| ==> names[i] in m && names[i] !in left
      invariant forall n :: n in m ==> n in names || n in left
      invariant text == Unlines(LinesOf(names, m))
    {
      var name :| name in left;
      assert (names + [name])[..|names|] == names;
      UnlinesAppend(LinesOf(names, m), [LineOf(name, m[name])]);
      assert Unlines([LineOf(name, m[name])]) == LineOf(name, m[name]) + "\n";
      text := text + name + "\t" + m[name] + "\n";
      assert text == Unlines(LinesOf(names, m)) + (LineOf(name, m[name]) + "\n");
      names := names + [name];
      left := left - {name};
    }
    assert Enumerates(names, m);
  }

  /** What a line of the file can hold. */
  predicate Writable(m: map<string, string>) {
    forall n :: n in m ==> n != "" && '\t' !in n && NoNewline(n) && NoNewline(m[n])
  }

  ghost predicate Holds(r: map<string, string>, names: seq<string>, m: map<string, string>) {
    (forall n :: n in r <==> n in names) && (forall n :: n in r && n in m ==> r[n] == m[n])
  }

  lemma LoadLast(lines: seq<string>, m: map<string, string>, names: seq<string>, last: string)
    requires last in m && last != "" && '\t' !in last
    requires Holds(LoadLines(lines), names, m)
    ensures Holds(LoadLines(lines + [LineOf(last, m[last])]), names + [last], m)
  {
    var all := lines + [LineOf(last, m[last])];
    assert all[..|lines|] == lines;
    CutJoined(last, '\t', m[last]);
    assert LoadLines(all) == LoadLines(lines)[last := m[last]];
    hide LoadLines;
  }

  lemma {:induction false} LoadLinesOf(names: seq<string>, m: map<string, string>)
    requires Writable(m) && forall i :: 0 <= i < |names| ==> names[i] in m
    ensures Holds(LoadLines(LinesOf(names, m)), names, m)
    ensures AllNoNewline(LinesOf(names, m))
  {
    hide LoadLines, Holds;
    if names == [] {
      NothingLoaded(m);
    } else {
      var last, rest := names[|names| - 1], names[..|names| - 1];
      LoadLinesOf(rest, m);
      LoadLast(LinesOf(rest, m), m, rest, last);
      assert names == rest + [last];
    }
  }

  lemma NothingLoaded(m: map<string, string>)
    ensures Holds(LoadLines([]), [], m)
  {
  }

  lemma LastLineIsEmpty(lines: seq<string>)
    ensures LoadLines(lines + [""]) == LoadLines(lines)
  {
  }

  /** Whatever order the lines were written in, reading them gives the map back. */
  lemma SaveThenLoad(text: string, m: map<string, string>)
    requires Writable(m) && IsSaved(text, m)
    ensures Load(text) == m
  {
    hide LinesOf, Split, Unlines, Writable;
    var names :| Enumerates(names, m) && text == Unlines(LinesOf(names, m));
    var lines := LinesOf(names, m);
    LoadLinesOf(names, m);
    SplitUnlines(lines);
    LastLineIsEmpty(lines);
    hide LoadLines, AllNoNewline;
    var r := LoadLines(lines);
    assert forall n :: n in r <==> n in m;
    assert r == m;
  }

  lemma {:induction false} LoadLinesWritable(lines: seq<string>)
    requires AllNoNewline(lines)
    ensures Writable(LoadLines(lines))
  {
    if lines != [] {
      var n := |lines| - 1;
      LoadLinesWritable(lines[..n]);
      CutJoins(lines[n], '\t');
      assert NoNewline(lines[n]);
    }
  }

  /** Whatever is in the file, what is loaded can be saved and loaded again. */
  lemma LoadSaveLoad(file: string, text: string)
    requires IsSaved(text, Load(file))
    ensures Load(text) == Load(file)
  {
    SplitHasNoNewline(file);
    LoadLinesWritable(Split(file));
    SaveThenLoad(text, Load(file));
  }

  // --------------------------------------------------------------- in the shell

  /** The default IFS characters that can stand in a line. */
  predicate Ifs(c: char) {
    c == ' ' || c == '\t'
  }

  function TrimLeft(s: string): string {
    if s != "" && Ifs(s[0]) then TrimLeft(s[1..]) else s
  }

  function TrimRight(s: string): string {
    if s != "" && Ifs(s[|s| - 1]) then TrimRight(s[..|s| - 1]) else s
  }

  /** What `read -r line` puts in the variable. */
  function ReadWord(line: string): string {
    TrimRight(TrimLeft(line))
  }

  /** cut -f1; a line without a tab is passed through whole. */
  function CutF1(line: string): string {
    match Cut(line, '\t')
    case None => line
    case Some((a, _)) => a
  }

  /** cut -f2. */
  function CutF2(line: string): string {
    match Cut(line, '\t')
    case None => line
    case Some((_, b)) => CutF1(b)
  }

  /** The lines the read loop sees: one that is not ended by a newline is not among them. */
  function Terminated(text: string): seq<string> {
    var lines := Split(text);
    lines[..|lines| - 1]
  }

  function ScanLines(lines: seq<string>): string {
    if lines == [] then ""
    else
      var line := ReadWord(lines[|lines| - 1]);
      if CutF1(line) == BUILTIN then CutF2(line) else ScanLines(lines[..|lines| - 1])
  }

  /** prev_hash after the loop of seed_builtin_blocklist. */
  function ShellRead(text: string): string {
    ScanLines(Terminated(text))
  }

  method ReadLoop(text: string) returns (prevHash: string)
    ensures prevHash == ShellRead(text)
  {
    prevHash := "";
    var lines := Terminated(text);
    for i := 0 to |lines|
      invariant prevHash == ScanLines(lines[..i])
    {
      assert lines[..i + 1][..i] == lines[..i];
      var line := ReadWord(lines[i]);
      var name := CutF1(line);
      var hash := CutF2(line);
      if name == BUILTIN {
        prevHash := hash;
      }
    }
    assert lines[..|lines|] == lines;
  }

  function KeptLines(lines: seq<string>): seq<string> {
    if lines == [] then []
    else
      var line := ReadWord(lines[|lines| - 1]);
      KeptLines(lines[..|lines| - 1]) + (if CutF1(line) == BUILTIN then [] else [line])
  }

  /** The file after the switch-off branch. */
  function ShellDrop(text: string): string {
    Unlines(KeptLines(Terminated(text)))
  }

  method DropLoop(text: string) returns (tmp: string)
    ensures tmp == ShellDrop(text)
  {
    hide ReadWord, CutF1, Split;
    tmp := "";
    var lines := Terminated(text);
    for i := 0 to |lines|
      invariant tmp == Unlines(KeptLines(lines[..i]))
    {
      assert lines[..i + 1][..i] == lines[..i];
      var line := ReadWord(lines[i]);
      ghost var kept := KeptLines(lines[..i]);
      assert KeptLines(lines[..i + 1]) == kept + (if CutF1(line) == BUILTIN then [] else [line]);
      if CutF1(line) == BUILTIN {
        assert kept + [] == kept;
        continue;
      }
      UnlinesAppend(kept, [line]);
      assert [line][1..] == [];
      assert Unlines([line]) == line + "\n" + "" == line + "\n";
      tmp := tmp + (line + "\n");
    }
    assert lines[..|lines|] == lines;
  }

  /** The file after `printf 'builtin\t%s\n'` over it. */
  function ShellWrite(hash: string): string {
    LineOf(BUILTIN, hash) + "\n"
  }

  /** Text no reader changes: not empty, without blanks. */
  predicate Word(s: string) {
    s != "" && forall i :: 0 <= i < |s| ==> !Ifs(s[i]) && s[i] != '\n'
  }

  predicate Plain(m: map<string, string>) {
    forall n :: n in m ==> Word(n) && Word(m[n])
  }

  lemma PlainIsWritable(m: map<string, string>)
    requires Plain(m)
    ensures Writable(m)
  {
  }

  lemma ShellFields(name: string, hash: string)
    requires Word(name) && Word(hash)
    ensures var line := ReadWord(LineOf(name, hash));
      line == LineOf(name, hash) && CutF1(line) == name && CutF2(line) == hash
  {
    CutJoined(name, '\t', hash);
    NothingToCut(hash, '\t');
  }

  lemma {:induction false} ScanFinds(names: seq<string>, m: map<string, string>)
    requires Plain(m) && forall i :: 0 <= i < |names| ==> names[i] in m
    ensures ScanLines(LinesOf(names, m)) == if BUILTIN in names then m[BUILTIN] else ""
  {
    hide LineOf, ReadWord, CutF1, CutF2, Word;
    if names != [] {
      var last, rest := names[|names| - 1], names[..|names| - 1];
      ScanFinds(rest, m);
      var lines := LinesOf(names, m);
      assert lines[..|lines| - 1] == LinesOf(rest, m);
      assert names == rest + [last];
      ShellFields(last, m[last]);
    }
  }

  lemma TerminatedLines(names: seq<string>, m: map<string, string>)
    requires Writable(m) && forall i :: 0 <= i < |names| ==> names[i] in m
    ensures Terminated(Unlines(LinesOf(names, m))) == LinesOf(names, m)
  {
    LoadLinesOf(names, m);
    SplitUnlines(LinesOf(names, m));
  }

  /** The script reads from a file written by Go the hash Go stored there. */
  lemma ShellReadsWhatGoSaved(text: string, m: map<string, string>)
    requires Plain(m) && IsSaved(text, m)
    ensures ShellRead(text) == BuiltinOf(m)
  {
    var names :| Enumerates(names, m) && text == Unlines(LinesOf(names, m));
    PlainIsWritable(m);
    TerminatedLines(names, m);
    ScanFinds(names, m);
  }

  lemma ShellWriteIsASave(hash: string)
    ensures IsSaved(ShellWrite(hash), map[BUILTIN := hash])
  {
    var names, m := [BUILTIN], map[BUILTIN := hash];
    assert LinesOf(names, m) == [LineOf(BUILTIN, hash)] by {
      assert names[..0] == [];
    }
    assert Unlines([LineOf(BUILTIN, hash)]) == LineOf(BUILTIN, hash) + "\n" + Unlines([]);
    assert Enumerates(names, m);
  }

  function WithoutBuiltin(names: seq<string>): seq<string> {
    if names == [] then []
    else WithoutBuiltin(names[..|names| - 1]) + (if names[|names| - 1] == BUILTIN then [] else [names[|names| - 1]])
  }

  lemma {:induction false} WithoutBuiltinMembers(names: seq<string>)
    requires forall i, j :: 0 <= i < j < |names| ==> names[i] != names[j]
    ensures var kept := WithoutBuiltin(names);
      && (forall n :: n in kept <==> n in names && n != BUILTIN)
      && (forall i, j :: 0 <= i < j < |kept| ==> kept[i] != kept[j])
  {
    if names != [] {
      var last, rest := names[|names| - 1], names[..|names| - 1];
      WithoutBuiltinMembers(rest);
      assert names == rest + [last] && last !in rest;
    }
  }

  lemma {:induction false} WithoutBuiltinKeeps(names: seq<string>, m: map<string, string>)
    requires Plain(m) && forall i :: 0 <= i < |names| ==> names[i] in m
    requires forall i, j :: 0 <= i < j < |names| ==> names[i] != names[j]
    ensures var kept, m' := WithoutBuiltin(names), m - {BUILTIN};
      && (forall n :: n in kept <==> n in names && n != BUILTIN)
      && (forall i :: 0 <= i < |kept| ==> kept[i] in m')
      && (forall i, j :: 0 <= i < j < |kept| ==> kept[i] != kept[j])
      && KeptLines(LinesOf(names, m)) == LinesOf(kept, m')
  {
    hide LineOf, ReadWord, CutF1, CutF2, Word;
    WithoutBuiltinMembers(names);
    if names != [] {
      var last, rest := names[|names| - 1], names[..|names| - 1];
      WithoutBuiltinKeeps(rest, m);
      var lines := LinesOf(names, m);
      assert lines[..|lines| - 1] == LinesOf(rest, m);
      ShellFields(last, m[last]);
      var kept := WithoutBuiltin(names);
      if last == BUILTIN {
        assert kept == WithoutBuiltin(rest);
      } else {
        assert kept[..|kept| - 1] == WithoutBuiltin(rest);
      }
    }
  }

  /** Switching the source off removes its entry and keeps the others. */
  lemma ShellDropIsASave(text: string, m: map<string, string>)
    requires Plain(m) && IsSaved(text, m)
    ensures IsSaved(ShellDrop(text), m - {BUILTIN})
  {
    var names :| Enumerates(names, m) && text == Unlines(LinesOf(names, m));
    PlainIsWritable(m);
    TerminatedLines(names, m);
    WithoutBuiltinKeeps(names, m);
    hide WithoutBuiltin, KeptLines, LinesOf, Unlines, Terminated, Plain;
    assert Enumerates(WithoutBuiltin(names), m - {BUILTIN});
  }

  // ------------------------------------------------------------- both on one file

  /** A change of the file: a button stores a hash (`text` is what Go's map order made
      of it), the script stores one, or the script drops the entry. */
  datatype Op = GoStores(hash: string, text: string) | ShellStores(hash: string) | ShellDrops

  ghost predicate Legal(file: string, op: Op) {
    match op
    case GoStores(hash, text) => Word(hash) && IsSaved(text, Load(file)[BUILTIN := hash])
    case ShellStores(hash) => Word(hash)
    case ShellDrops => true
  }

  function Changed(file: string, op: Op): string {
    match op
    case GoStores(_, text) => text
    case ShellStores(hash) => ShellWrite(hash)
    case ShellDrops => ShellDrop(file)
  }

  function Stored(op: Op): string {
    match op
    case GoStores(hash, _) => hash
    case ShellStores(hash) => hash
    case ShellDrops => ""
  }

  ghost predicate AllLegal(file: string, ops: seq<Op>)
    decreases |ops|
  {
    ops == [] || (Legal(file, ops[0]) && AllLegal(Changed(file, ops[0]), ops[1..]))
  }

  function AfterOps(file: string, ops: seq<Op>): string
    decreases |ops|
  {
    if ops == [] then file else AfterOps(Changed(file, ops[0]), ops[1..])
  }

  ghost predicate Tidy(file: string, baseline: string) {
    exists m :: Plain(m) && IsSaved(file, m) && baseline == BuiltinOf(m)
  }

  lemma TidyReads(file: string, baseline: string)
    requires Tidy(file, baseline)
    ensures ShellRead(file) == baseline
    ensures BuiltinOf(Load(file)) == baseline
  {
    var m :| Plain(m) && IsSaved(file, m) && baseline == BuiltinOf(m);
    PlainIsWritable(m);
    SaveThenLoad(file, m);
    ShellReadsWhatGoSaved(file, m);
  }

  function BuiltinOf(m: map<string, string>): string {
    if BUILTIN in m then m[BUILTIN] else ""
  }

  lemma TidyBy(file: string, m: map<string, string>)
    requires Plain(m) && IsSaved(file, m)
    ensures Tidy(file, BuiltinOf(m))
  {
  }

  lemma OpKeepsTidy(file: string, baseline: string, op: Op)
    requires Tidy(file, baseline) && Legal(file, op)
    ensures Tidy(Changed(file, op), Stored(op))
  {
    var m :| Plain(m) && IsSaved(file, m) && baseline == BuiltinOf(m);
    PlainIsWritable(m);
    SaveThenLoad(file, m);
    BuiltinIsAWord();
    ShellDropIsASave(file, m);
    hide IsSaved, Load, Word, Tidy, ShellDrop, ShellWrite;
    match op
    case GoStores(hash, text) => TidyBy(text, m[BUILTIN := hash]);
    case ShellStores(hash) =>
      ShellWriteIsASave(hash);
      TidyBy(ShellWrite(hash), map[BUILTIN := hash]);
    case ShellDrops => TidyBy(ShellDrop(file), m - {BUILTIN});
  }

  lemma BuiltinIsAWord()
    ensures Word(BUILTIN)
  {
  }

  lemma {:induction false} OpsKeepTidy(file: string, baseline: string, ops: seq<Op>)
    requires Tidy(file, baseline) && AllLegal(file, ops)
    ensures Tidy(AfterOps(file, ops), if ops == [] then baseline else Stored(ops[|ops| - 1]))
    decreases |ops|
  {
    hide Tidy, Legal;
    if ops != [] {
      OpKeepsTidy(file, baseline, ops[0]);
      OpsKeepTidy(Changed(file, ops[0]), Stored(ops[0]), ops[1..]);
    }
  }

  /** However Go and the script take turns on the file, both read from it the hash that
      was stored last, or none after it was dropped. */
  lemma BothReadersAgree(ops: seq<Op>)
    requires AllLegal("", ops) && ops != []
    ensures var file, last := AfterOps("", ops), Stored(ops[|ops| - 1]);
      && ShellRead(file) == last
      && BuiltinOf(Load(file)) == last
  {
    var none: map<string, string> := map[];
    assert Enumerates([], none) && Unlines(LinesOf([], none)) == "";
    assert IsSaved("", none);
    assert Tidy("", "") by { assert Plain(none); }
    OpsKeepTidy("", "", ops);
    TidyReads(AfterOps("", ops), Stored(ops[|ops| - 1]));
  }

  /** It takes words: an entry without a hash is "" for Go, but "builtin" for the script. */
  lemma EmptyHashReadsDifferently()
    ensures Load(ShellWrite("")) == map[BUILTIN := ""]
    ensures ShellRead(ShellWrite("")) == BUILTIN
  {
    ShellWriteIsASave("");
    SaveThenLoad(ShellWrite(""), map[BUILTIN := ""]);
    var line := LineOf(BUILTIN, "");
    SplitFirstLine(line, "");
    assert ShellWrite("") == line + "\n" + "";
    assert Terminated(ShellWrite("")) == [line];
    TrailingTab(line);
    NothingToCut(BUILTIN, '\t');
    hide ReadWord;
    assert [line][..0] == [];
  }

  lemma TrailingTab(line: string)
    requires line == LineOf(BUILTIN, "")
    ensures ReadWord(line) == BUILTIN
  {
    assert TrimLeft(line) == line;
    assert line[..|line| - 1] == BUILTIN;
    assert TrimRight(BUILTIN) == BUILTIN;
  }
}
