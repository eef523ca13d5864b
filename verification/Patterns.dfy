/** The regular expressions of the input checks, with their usual meaning, and the
    predicates that stand for them. */
module Patterns {
  import opened Text
  import opened Numerals
  import Validate
  import LiveConfig
  import TinyauthEnv

  /** A class is a list of ranges. */
  datatype Re =
    | Class(ranges: seq<(char, char)>)
    | Then(first: Re, second: Re)
    | Optional(re: Re)
    | Many(re: Re)

  predicate In(c: char, ranges: seq<(char, char)>) {
    exists k :: 0 <= k < |ranges| && ranges[k].0 <= c <= ranges[k].1
  }

  /** The whole of s matches. */
  predicate Matches(re: Re, s: string)
    decreases re, |s|
  {
    match re
    case Class(ranges) => |s| == 1 && In(s[0], ranges)
    case Then(a, b) => exists i :: 0 <= i <= |s| && Matches(a, s[..i]) && Matches(b, s[i..])
    case Optional(a) => s == "" || Matches(a, s)
    case Many(a) => s == "" || exists i :: 0 < i <= |s| && Matches(a, s[..i]) && Matches(re, s[i..])
  }

  /** re{0,n} */
  function UpTo(re: Re, n: nat): Re {
    if n == 0 then Optional(Class([])) else Optional(Then(re, UpTo(re, n - 1)))
  }

  function OneOrMore(re: Re): Re {
    Then(re, Many(re))
  }

  predicate AllIn(s: string, ranges: seq<(char, char)>) {
    forall i :: 0 <= i < |s| ==> In(s[i], ranges)
  }

  lemma {:induction false} ManyOfClass(ranges: seq<(char, char)>, s: string)
    ensures Matches(Many(Class(ranges)), s) <==> AllIn(s, ranges)
    decreases |s|
  {
    if s != "" {
      ManyOfClass(ranges, s[1..]);
      assert s[..1] == [s[0]];
      assert AllIn(s, ranges) <==> In(s[0], ranges) && AllIn(s[1..], ranges) by {
        assert forall i :: 0 <= i < |s| - 1 ==> s[1..][i] == s[i + 1];
        assert forall i :: 0 < i < |s| ==> s[i] == s[1..][i - 1];
      }
      hide AllIn, In;
      if Matches(Many(Class(ranges)), s) {
        var i :| 0 < i <= |s| && Matches(Class(ranges), s[..i]) && Matches(Many(Class(ranges)), s[i..]);
        assert i == 1;
      }
      if In(s[0], ranges) && Matches(Many(Class(ranges)), s[1..]) {
        assert Matches(Class(ranges), s[..1]);
      }
    }
  }

  lemma AllInParts(a: string, b: string, ranges: seq<(char, char)>)
    ensures AllIn(a + b, ranges) <==> AllIn(a, ranges) && AllIn(b, ranges)
  {
    assert forall i :: 0 <= i < |a| ==> (a + b)[i] == a[i];
    assert forall i :: 0 <= i < |b| ==> (a + b)[|a| + i] == b[i];
  }

  lemma {:induction false} UpToOfClass(ranges: seq<(char, char)>, n: nat, s: string)
    ensures Matches(UpTo(Class(ranges), n), s) <==> |s| <= n && AllIn(s, ranges)
    decreases n
  {
    if n > 0 && s != "" {
      var re := Then(Class(ranges), UpTo(Class(ranges), n - 1));
      UpToOfClass(ranges, n - 1, s[1..]);
      assert s == s[..1] + s[1..] && s[..1] == [s[0]];
      AllInParts(s[..1], s[1..], ranges);
      assert AllIn(s[..1], ranges) <==> In(s[0], ranges);
      hide AllIn, In;
      if Matches(re, s) {
        var i :| 0 <= i <= |s| && Matches(Class(ranges), s[..i]) && Matches(UpTo(Class(ranges), n - 1), s[i..]);
        assert i == 1;
      }
      if In(s[0], ranges) && Matches(UpTo(Class(ranges), n - 1), s[1..]) {
        assert Matches(Class(ranges), s[..1]);
      }
    }
  }

  lemma OneOrMoreOfClass(ranges: seq<(char, char)>, s: string)
    ensures Matches(OneOrMore(Class(ranges)), s) <==> s != "" && AllIn(s, ranges)
  {
    if s != "" {
      ManyOfClass(ranges, s[1..]);
      assert s == s[..1] + s[1..] && s[..1] == [s[0]];
      AllInParts(s[..1], s[1..], ranges);
      assert AllIn(s[..1], ranges) <==> In(s[0], ranges);
      hide AllIn, In;
      if Matches(OneOrMore(Class(ranges)), s) {
        var i :| 0 <= i <= |s| && Matches(Class(ranges), s[..i]) && Matches(Many(Class(ranges)), s[i..]);
        assert i == 1;
      }
      if In(s[0], ranges) && Matches(Many(Class(ranges)), s[1..]) {
        assert Matches(Class(ranges), s[..1]);
      }
    }
  }

  // ------------------------------------------------------------------ the patterns

  const LOWER: seq<(char, char)> := [('a', 'z'), ('0', '9')]
  const LETTERS: seq<(char, char)> := [('a', 'z'), ('A', 'Z'), ('0', '9')]

  /** ^[a-z0-9]([a-z0-9-]{0,61}[a-z0-9])?$ */
  function NameRe(): Re {
    Then(Class(LOWER), Optional(Then(UpTo(Class(LOWER + [('-', '-')]), 61), Class(LOWER))))
  }

  /** ^[a-zA-Z0-9]([a-zA-Z0-9.-]*[a-zA-Z0-9])?$ */
  function GateHostRe(): Re {
    Then(Class(LETTERS), Optional(Then(Many(Class(LETTERS + [('.', '.'), ('-', '-')])), Class(LETTERS))))
  }

  /** ^[a-zA-Z0-9_.:\[\]-]+$ */
  function TargetRe(): Re {
    OneOrMore(Class(LETTERS + [('_', '_'), ('.', '.'), (':', ':'), ('[', '['), (']', ']'), ('-', '-')]))
  }

  // ^[a-zA-Z0-9_.\-/*]*$
  function PathRe(): Re {
    Many(Class(LETTERS + [('_', '_'), ('.', '.'), ('-', '-'), ('/', '/'), ('*', '*')]))
  }

  /** ^[A-Za-z0-9_.@-]+$ */
  function UserRe(): Re {
    OneOrMore(Class(LETTERS + [('_', '_'), ('.', '.'), ('@', '@'), ('-', '-')]))
  }

  lemma InLower(c: char)
    ensures In(c, LOWER) <==> LowerAlnum(c)
    ensures In(c, LOWER + [('-', '-')]) <==> LowerAlnum(c) || c == '-'
    ensures In(c, LETTERS) <==> Alnum(c)
    ensures In(c, LETTERS + [('.', '.'), ('-', '-')]) <==> Alnum(c) || c == '.' || c == '-'
  {
    var a, b := LOWER + [('-', '-')], LETTERS + [('.', '.'), ('-', '-')];
    assert LOWER[0] == a[0] == ('a', 'z') && LOWER[1] == a[1] == ('0', '9') && a[2] == ('-', '-');
    assert LETTERS[0] == b[0] == ('a', 'z') && LETTERS[1] == b[1] == ('A', 'Z') && LETTERS[2] == b[2] == ('0', '9');
    assert b[3] == ('.', '.') && b[4] == ('-', '-');
  }

  lemma InTarget(c: char)
    ensures In(c, LETTERS + [('_', '_'), ('.', '.'), (':', ':'), ('[', '['), (']', ']'), ('-', '-')]) <==>
      Alnum(c) || c == '_' || c == '.' || c == ':' || c == '[' || c == ']' || c == '-'
  {
    var r := LETTERS + [('_', '_'), ('.', '.'), (':', ':'), ('[', '['), (']', ']'), ('-', '-')];
    assert r[0] == ('a', 'z') && r[1] == ('A', 'Z') && r[2] == ('0', '9');
    assert r[3] == ('_', '_') && r[4] == ('.', '.') && r[5] == (':', ':') && r[6] == ('[', '[') && r[7] == (']', ']') && r[8] == ('-', '-');
  }

  lemma InPath(c: char)
    ensures In(c, LETTERS + [('_', '_'), ('.', '.'), ('-', '-'), ('/', '/'), ('*', '*')]) <==>
      Alnum(c) || c == '_' || c == '.' || c == '-' || c == '/' || c == '*'
  {
    var r := LETTERS + [('_', '_'), ('.', '.'), ('-', '-'), ('/', '/'), ('*', '*')];
    assert r[0] == ('a', 'z') && r[1] == ('A', 'Z') && r[2] == ('0', '9');
    assert r[3] == ('_', '_') && r[4] == ('.', '.') && r[5] == ('-', '-') && r[6] == ('/', '/') && r[7] == ('*', '*');
  }

  lemma InUser(c: char)
    ensures In(c, LETTERS + [('_', '_'), ('.', '.'), ('@', '@'), ('-', '-')]) <==> TinyauthEnv.NameChar(c)
  {
    var r := LETTERS + [('_', '_'), ('.', '.'), ('@', '@'), ('-', '-')];
    assert r[0] == ('a', 'z') && r[1] == ('A', 'Z') && r[2] == ('0', '9');
    assert r[3] == ('_', '_') && r[4] == ('.', '.') && r[5] == ('@', '@') && r[6] == ('-', '-');
  }

  /** An end character, and up to some inner ones with an end character after them. */
  lemma Enclosed(ends: seq<(char, char)>, inner: Re, s: string)
    ensures Matches(Then(Class(ends), Optional(Then(inner, Class(ends)))), s) <==>
      s != "" && In(s[0], ends) && (|s| == 1 || (In(s[|s| - 1], ends) && Matches(inner, s[1..|s| - 1])))
  {
    hide In;
    var n := |s| - 1;
    var tail := Then(inner, Class(ends));
    if s != "" {
      assert s[..1] == [s[0]];
      Last(inner, ends, s[1..]);
      if Matches(Then(Class(ends), Optional(tail)), s) {
        var i :| 0 <= i <= |s| && Matches(Class(ends), s[..i]) && Matches(Optional(tail), s[i..]);
        assert i == 1;
      }
      if In(s[0], ends) && Matches(Optional(tail), s[1..]) {
        assert Matches(Class(ends), s[..1]);
      }
      if n > 0 {
        assert s[1..][..n - 1] == s[1..n] && s[1..][n - 1] == s[n];
      }
    }
  }

  lemma Last(inner: Re, ends: seq<(char, char)>, s: string)
    ensures Matches(Then(inner, Class(ends)), s) <==> s != "" && In(s[|s| - 1], ends) && Matches(inner, s[..|s| - 1])
  {
    hide In;
    var n := |s| - 1;
    if Matches(Then(inner, Class(ends)), s) {
      var i :| 0 <= i <= |s| && Matches(inner, s[..i]) && Matches(Class(ends), s[i..]);
      assert i == n;
    }
    if s != "" && In(s[n], ends) && Matches(inner, s[..n]) {
      assert Matches(Class(ends), s[n..]);
    }
  }

  /** The names of exposes, apps and targets. */
  lemma NamePattern(s: string)
    ensures Validate.ValidName(s) <==> Matches(NameRe(), s)
  {
    var wide := LOWER + [('-', '-')];
    Enclosed(LOWER, UpTo(Class(wide), 61), s);
    forall c ensures (In(c, LOWER) <==> LowerAlnum(c)) && (In(c, wide) <==> LowerAlnum(c) || c == '-') {
      InLower(c);
    }
    if |s| > 1 {
      UpToOfClass(wide, 61, s[1..|s| - 1]);
      hide In;
      Middle(s, wide);
    }
  }

  /** All characters are in a class if the inner ones are, and the two ends. */
  lemma Middle(s: string, ranges: seq<(char, char)>)
    requires |s| > 1
    ensures (forall i :: 0 <= i < |s| ==> In(s[i], ranges)) <==>
      In(s[0], ranges) && In(s[|s| - 1], ranges) && AllIn(s[1..|s| - 1], ranges)
  {
    hide In;
    var inner := s[1..|s| - 1];
    assert forall i :: 0 <= i < |inner| ==> inner[i] == s[i + 1];
    assert forall i :: 0 < i < |s| - 1 ==> s[i] == inner[i - 1];
  }

  /** The hosts of netgate's forwards and limits. */
  lemma GateHostPattern(s: string)
    ensures LiveConfig.ValidHost(s) <==> Matches(GateHostRe(), s)
  {
    var wide := LETTERS + [('.', '.'), ('-', '-')];
    Enclosed(LETTERS, Many(Class(wide)), s);
    forall c ensures (In(c, LETTERS) <==> Alnum(c)) && (In(c, wide) <==> Alnum(c) || c == '.' || c == '-') {
      InLower(c);
    }
    if |s| > 1 {
      ManyOfClass(wide, s[1..|s| - 1]);
      hide In;
      Middle(s, wide);
    }
  }

  /** Proxy targets. */
  lemma TargetPattern(s: string)
    ensures Validate.TargetCharset(s) <==> Matches(TargetRe(), s)
  {
    var ranges := LETTERS + [('_', '_'), ('.', '.'), (':', ':'), ('[', '['), (']', ']'), ('-', '-')];
    OneOrMoreOfClass(ranges, s);
    hide In;
    forall i | 0 <= i < |s| ensures In(s[i], ranges) <==>
      Alnum(s[i]) || s[i] == '_' || s[i] == '.' || s[i] == ':' || s[i] == '[' || s[i] == ']' || s[i] == '-' {
      InTarget(s[i]);
    }
  }

  /** Paths and prefixes. */
  lemma PathPattern(s: string)
    ensures Validate.PathLike(s) <==> Matches(PathRe(), s)
  {
    var ranges := LETTERS + [('_', '_'), ('.', '.'), ('-', '-'), ('/', '/'), ('*', '*')];
    ManyOfClass(ranges, s);
    hide In;
    forall i | 0 <= i < |s| ensures In(s[i], ranges) <==>
      Alnum(s[i]) || s[i] == '_' || s[i] == '.' || s[i] == '-' || s[i] == '/' || s[i] == '*' {
      InPath(s[i]);
    }
  }

  /** The names of tinyauth users. */
  lemma UserPattern(s: string)
    ensures TinyauthEnv.ValidName(s) <==> Matches(UserRe(), s)
  {
    var ranges := LETTERS + [('_', '_'), ('.', '.'), ('@', '@'), ('-', '-')];
    OneOrMoreOfClass(ranges, s);
    hide In;
    forall i | 0 <= i < |s| ensures In(s[i], ranges) <==> TinyauthEnv.NameChar(s[i]) {
      InUser(s[i]);
    }
  }

  // ------------------------------------------------------------ host names with labels

  const LABEL: seq<(char, char)> := LETTERS + [('-', '-')]

  function DottedLabel(): Re {
    Then(Class([('.', '.')]), OneOrMore(Class(LABEL)))
  }

  function Labels(): Re {
    Then(OneOrMore(Class(LABEL)), Many(DottedLabel()))
  }

  /** ^(\*\.)?[a-zA-Z0-9-]+(\.[a-zA-Z0-9-]+)*$ */
  function HostRe(): Re {
    Then(Optional(Then(Class([('*', '*')]), Class([('.', '.')]))), Labels())
  }

  predicate LabelChar(c: char) {
    Alnum(c) || c == '-'
  }

  predicate InnerHost(h: string) {
    && h != "" && h[0] != '.' && h[|h| - 1] != '.'
    && (forall i :: 0 <= i < |h| ==> LabelChar(h[i]) || h[i] == '.')
    && forall i :: 0 <= i < |h| - 1 ==> !(h[i] == '.' && h[i + 1] == '.')
  }

  predicate MoreLabels(t: string) {
    t == "" || (t[0] == '.' && InnerHost(t[1..]))
  }

  predicate AllLabel(s: string) {
    forall i :: 0 <= i < |s| ==> LabelChar(s[i])
  }

  lemma LabelClass(s: string)
    ensures Matches(OneOrMore(Class(LABEL)), s) <==> s != "" && AllLabel(s)
  {
    OneOrMoreOfClass(LABEL, s);
    forall c ensures In(c, LABEL) <==> LabelChar(c) {
      assert LABEL[0] == ('a', 'z') && LABEL[1] == ('A', 'Z') && LABEL[2] == ('0', '9') && LABEL[3] == ('-', '-');
    }
  }

  function FirstDot(h: string): (i: nat)
    ensures i <= |h| && '.' !in h[..i] && (i < |h| ==> h[i] == '.')
  {
    if h == "" || h[0] == '.' then 0
    else
      assert h[..1 + FirstDot(h[1..])] == [h[0]] + h[1..][..FirstDot(h[1..])];
      1 + FirstDot(h[1..])
  }

  /** A host is a label with more labels after it. */
  lemma SplitHost(h: string)
    ensures InnerHost(h) <==> exists i :: 0 < i <= |h| && AllLabel(h[..i]) && MoreLabels(h[i..])
  {
    if InnerHost(h) {
      var i := FirstDot(h);
      assert forall k :: 0 <= k < i ==> h[..i][k] == h[k] && h[k] != '.';
      if i < |h| {
        assert forall k :: 0 <= k < |h| - i - 1 ==> h[i..][1..][k] == h[i + 1 + k];
      }
      assert 0 < i <= |h| && AllLabel(h[..i]) && MoreLabels(h[i..]);
    }
    if i :| 0 < i <= |h| && AllLabel(h[..i]) && MoreLabels(h[i..]) {
      assert forall k :: 0 <= k < i ==> h[k] == h[..i][k];
      if i < |h| {
        assert forall k :: i < k < |h| ==> h[k] == h[i..][1..][k - i - 1];
      }
    }
  }

  lemma {:induction false} LabelsMatch(h: string)
    ensures Matches(Labels(), h) <==> InnerHost(h)
    decreases |h|, 1
  {
    hide AllLabel, InnerHost, MoreLabels;
    SplitHost(h);
    forall i | 0 < i <= |h| ensures Matches(Many(DottedLabel()), h[i..]) <==> MoreLabels(h[i..]) {
      MoreMatch(h[i..]);
    }
    forall i | 0 <= i <= |h| ensures Matches(OneOrMore(Class(LABEL)), h[..i]) <==> i > 0 && AllLabel(h[..i]) {
      LabelClass(h[..i]);
    }
    hide OneOrMore, DottedLabel;
  }

  lemma DottedMatch(s: string)
    ensures Matches(DottedLabel(), s) <==> |s| > 1 && s[0] == '.' && AllLabel(s[1..])
  {
    var dot := [('.', '.')];
    assert forall c :: In(c, dot) <==> c == '.' by {
      assert dot[0] == ('.', '.');
    }
    hide In, AllLabel;
    if s != "" {
      LabelClass(s[1..]);
      hide OneOrMore;
      if Matches(DottedLabel(), s) {
        var i :| 0 <= i <= |s| && Matches(Class(dot), s[..i]) && Matches(OneOrMore(Class(LABEL)), s[i..]);
        assert i == 1;
      }
      if s[0] == '.' && Matches(OneOrMore(Class(LABEL)), s[1..]) {
        assert s[..1] == ".";
        assert Matches(Class(dot), s[..1]);
      }
    }
  }

  lemma {:induction false} MoreMatch(t: string)
    ensures Matches(Many(DottedLabel()), t) <==> MoreLabels(t)
    decreases |t|, 0
  {
    hide AllLabel, InnerHost;
    if t != "" {
      var h := t[1..];
      SplitHost(h);
      if Matches(Many(DottedLabel()), t) {
        var i :| 0 < i <= |t| && Matches(DottedLabel(), t[..i]) && Matches(Many(DottedLabel()), t[i..]);
        DottedMatch(t[..i]);
        MoreMatch(t[i..]);
        hide MoreLabels, OneOrMore, DottedLabel;
        assert t[..i][1..] == h[..i - 1] && t[i..] == h[i - 1..];
      }
      if t[0] == '.' && InnerHost(h) {
        var j :| 0 < j <= |h| && AllLabel(h[..j]) && MoreLabels(h[j..]);
        var i := j + 1;
        assert t[..i][1..] == h[..j] && t[i..] == h[j..];
        DottedMatch(t[..i]);
        MoreMatch(t[i..]);
        hide MoreLabels, OneOrMore, DottedLabel;
        assert 0 < i <= |t| && Matches(DottedLabel(), t[..i]) && Matches(Many(DottedLabel()), t[i..]);
      }
    }
  }

  lemma StarDot(s: string)
    ensures Matches(Then(Class([('*', '*')]), Class([('.', '.')])), s) <==> s == "*."
  {
    var star, dot := [('*', '*')], [('.', '.')];
    assert star[0] == ('*', '*') && dot[0] == ('.', '.');
    if Matches(Then(Class(star), Class(dot)), s) {
      var i :| 0 <= i <= |s| && Matches(Class(star), s[..i]) && Matches(Class(dot), s[i..]);
      assert i == 1 && |s| == 2;
    }
    if s == "*." {
      assert Matches(Class(star), s[..1]) && Matches(Class(dot), s[1..]);
    }
  }

  /** The hosts of Dev Proxy. */
  lemma HostPattern(s: string)
    ensures Validate.ValidHost(s) <==> Matches(HostRe(), s)
  {
    var h := TrimPrefix(s, "*.");
    assert Validate.ValidHost(s) <==> InnerHost(h);
    hide Labels, InnerHost;
    LabelsMatch(h);
    LabelsMatch(s);
    StarIsNoHost(s);
    var star := Then(Class([('*', '*')]), Class([('.', '.')]));
    if Matches(HostRe(), s) {
      var i :| 0 <= i <= |s| && Matches(Optional(star), s[..i]) && Matches(Labels(), s[i..]);
      StarDot(s[..i]);
      if i == 0 {
        assert s[0..] == s && s[..0] == "";
      } else {
        assert "*." <= s && s[2..] == h;
      }
    }
    if InnerHost(h) {
      var i := if "*." <= s then 2 else 0;
      StarDot(s[..i]);
      assert s[i..] == h;
      assert 0 <= i <= |s| && Matches(Optional(star), s[..i]) && Matches(Labels(), s[i..]);
    }
  }

  lemma StarIsNoHost(s: string)
    ensures "*." <= s ==> !InnerHost(s)
  {
    assert "*." <= s ==> !LabelChar(s[0]) && s[0] != '.';
  }
}
