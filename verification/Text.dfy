/** The string operations of Go's strings package that the fragment printers and
    parsers use. */
module Text {
  predicate NoNewline(s: string) {
    '\n' !in s
  }

  predicate AllNoNewline(lines: seq<string>) {
    forall i :: 0 <= i < |lines| ==> NoNewline(lines[i])
  }

  predicate HasSuffix(s: string, suffix: string) {
    |suffix| <= |s| && s[|s| - |suffix|..] == suffix
  }

  function TrimPrefix(s: string, prefix: string): string {
    if prefix <= s then s[|prefix|..] else s
  }

  function TrimSuffix(s: string, suffix: string): string {
    if HasSuffix(s, suffix) then s[..|s| - |suffix|] else s
  }

  /** strings.Split(s, "\n"). */
  function Split(s: string): (lines: seq<string>)
    ensures |lines| > 0
  {
    if s == "" then [""]
    else
      var rest := Split(s[1..]);
      if s[0] == '\n' then [""] + rest else [[s[0]] + rest[0]] + rest[1..]
  }

  /** Every line followed by a newline, the way the printers write. */
  function Unlines(lines: seq<string>): string {
    if lines == [] then "" else lines[0] + "\n" + Unlines(lines[1..])
  }

  /** unicode.IsSpace. */
  predicate IsSpace(c: char) {
    || c == '\t' || c == '\n' || c == '\U{0B}' || c == '\U{0C}' || c == '\r' || c == ' '
    || c == '\U{85}' || c == '\U{A0}' || c == '\U{1680}' || '\U{2000}' <= c <= '\U{200A}'
    || c == '\U{2028}' || c == '\U{2029}' || c == '\U{202F}' || c == '\U{205F}' || c == '\U{3000}'
  }

  /** strings.TrimSpace(s) == "". */
  predicate Blank(s: string) {
    forall i :: 0 <= i < |s| ==> IsSpace(s[i])
  }

  function DropBlankTail(lines: seq<string>): seq<string> {
    if lines != [] && Blank(lines[|lines| - 1]) then DropBlankTail(lines[..|lines| - 1]) else lines
  }

  /** lines is the start of all, and only blank lines follow it there. */
  predicate OnlyBlanksFollow(all: seq<string>, lines: seq<string>) {
    lines <= all && forall i :: |lines| <= i < |all| ==> Blank(all[i])
  }

  lemma AppendNoNewline(a: seq<string>, b: seq<string>)
    requires AllNoNewline(a) && AllNoNewline(b)
    ensures AllNoNewline(a + b)
  {
  }

  lemma {:induction false} SplitHasNoNewline(s: string)
    ensures AllNoNewline(Split(s))
  {
    if s != "" {
      SplitHasNoNewline(s[1..]);
      var rest := Split(s[1..]);
      assert NoNewline(rest[0]);
    }
  }

  lemma {:induction false} SplitFirstLine(line: string, rest: string)
    requires NoNewline(line)
    ensures Split(line + "\n" + rest) == [line] + Split(rest)
  {
    var s := line + "\n" + rest;
    if line == "" {
      assert s[1..] == rest;
    } else {
      assert s[1..] == line[1..] + "\n" + rest;
      SplitFirstLine(line[1..], rest);
      assert [line[0]] + line[1..] == line;
    }
  }

  /** Splitting what was printed gives the lines back, and an empty one after the last newline. */
  lemma {:induction false} SplitUnlines(lines: seq<string>)
    requires AllNoNewline(lines)
    ensures Split(Unlines(lines)) == lines + [""]
  {
    if lines != [] {
      assert NoNewline(lines[0]);
      SplitFirstLine(lines[0], Unlines(lines[1..]));
      assert AllNoNewline(lines[1..]) by {
        assert forall i :: 0 <= i < |lines[1..]| ==> lines[1..][i] == lines[i + 1];
      }
      SplitUnlines(lines[1..]);
      assert lines == [lines[0]] + lines[1..];
    }
  }

  lemma {:induction false} UnlinesAppend(a: seq<string>, b: seq<string>)
    ensures Unlines(a + b) == Unlines(a) + Unlines(b)
  {
    if a == [] {
      assert a + b == b;
    } else {
      assert (a + b)[1..] == a[1..] + b;
      UnlinesAppend(a[1..], b);
    }
  }

  /** A whole line more in a string builder that holds the lines `done`. */
  method AppendLine(text: string, ghost done: seq<string>, line: string) returns (r: string)
    requires text == Unlines(done)
    ensures r == Unlines(done + [line])
  {
    UnlinesAppend(done, [line]);
    assert Unlines([line]) == line + "\n";
    r := text + (line + "\n");
  }

  /** The lines left are the longest stretch that ends in a line which is not blank. */
  lemma {:induction false} DropBlankTailExactly(lines: seq<string>, kept: seq<string>)
    ensures DropBlankTail(lines) == kept <==>
      kept <= lines && (kept == [] || !Blank(kept[|kept| - 1]))
      && (forall i :: |kept| <= i < |lines| ==> Blank(lines[i]))
  {
    if lines != [] && Blank(lines[|lines| - 1]) {
      DropBlankTailExactly(lines[..|lines| - 1], kept);
      if kept == lines {
        assert DropBlankTail(lines) != kept by {
          DropBlankTailShrinks(lines[..|lines| - 1]);
        }
      }
    } else if kept <= lines && |kept| < |lines| {
      assert lines[|lines| - 1] == lines[|lines| - 1];
    }
  }

  lemma {:induction false} DropBlankTailShrinks(lines: seq<string>)
    ensures |DropBlankTail(lines)| <= |lines| && DropBlankTail(lines) <= lines
  {
    if lines != [] && Blank(lines[|lines| - 1]) {
      DropBlankTailShrinks(lines[..|lines| - 1]);
    }
  }
}
