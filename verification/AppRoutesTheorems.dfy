/** Exactly which texts the App Routes parser accepts, and what printing, re-printing
    and normalizing keep. */
module AppRoutesTheorems {
  import opened Options
  import opened Text
  import opened ForwardAuth
  import opened AppRoutes

  /** Trimming a prefix that ends in a space and then a suffix that starts with one
      reads back the target, except that both may claim the same space. */
  lemma TargetOfExactly(line: string, target: string)
    ensures TargetOf(line) == Some(target) <==>
      line == REVERSE_PROXY + target + OPEN || (target == "{" && line == REVERSE_PROXY + "{")
  {
    var p := |REVERSE_PROXY|;
    if REVERSE_PROXY <= line && HasSuffix(line, OPEN) {
      var tail := line[p..];
      assert line == REVERSE_PROXY + tail;
      assert line[|line| - 1] == OPEN[1] == '{';
      assert REVERSE_PROXY[p - 1] == ' ';
      if |tail| >= 2 {
        assert tail[|tail| - 2..] == OPEN;
        assert tail == tail[..|tail| - 2] + OPEN;
        assert line == REVERSE_PROXY + tail[..|tail| - 2] + OPEN;
      } else {
        assert |tail| == 1 && tail[0] == '{';
        assert tail == "{";
      }
    }
    if line == REVERSE_PROXY + target + OPEN {
      assert line == REVERSE_PROXY + (target + OPEN);
      assert line[p..] == target + OPEN;
    }
    if line == REVERSE_PROXY + "{" {
      assert REVERSE_PROXY == "\treverse_proxy" + " ";
      assert line == "\treverse_proxy" + OPEN;
    }
  }

  lemma CookieIsNotClose(name: string)
    ensures CookieLine() != "\t}" && CookieLine()[1] == '\t'
  {
  }

  /** The proxy part is read back exactly from its spellings. */
  lemma ProxyTargetExactly(a: App, lines: seq<string>)
    ensures ProxyTarget(a.name, lines) == Some(a.target) <==>
      exists sp :: Spellable(a, sp) && lines == ProxyLines(a, sp)
  {
    CookieIsNotClose(a.name);
    hide HeaderDown, CookieLine, HasSuffix, TrimSuffix, TrimPrefix;
    if lines != [] {
      TargetOfExactly(lines[0], a.target);
    }
    if ProxyTarget(a.name, lines) == Some(a.target) {
      var sp := Spelling(false, lines[2] != CookieLine(), lines[0] != REVERSE_PROXY + a.target + OPEN);
      assert lines == [lines[0], lines[1]] + lines[2..];
      if lines[2] == CookieLine() {
        assert lines[2..] == [lines[2]] + lines[3..];
      }
      assert lines == ProxyLines(a, sp);
    }
    forall sp | Spellable(a, sp) && lines == ProxyLines(a, sp)
      ensures ProxyTarget(a.name, lines) == Some(a.target)
    {
      assert lines[0] == ProxyLine(a.target, sp);
      if sp.noStrip {
        assert lines[2..] == ["\t}"];
      } else {
        assert lines[3..] == ["\t}"];
      }
    }
  }

  lemma ProxyIsNoAuth(a: App, sp: Spelling)
    ensures MatchedLength(ProxyLines(a, sp), "\t") == 0 && !(FORWARD_AUTH <= ProxyLines(a, sp)[0])
  {
    var l := ProxyLines(a, sp);
    BlocksDiffer("\t");
    MatchedExactly(l, "\t");
    hide Block, LegacyBlock, HeaderDown, CookieLine, MatchedLength;
    assert l[0][1] == 'r' && FORWARD_AUTH[1] == 'f';
    assert FORWARD_AUTH == "\t" + "forward_auth ";
    assert l[0] != Block("\t")[0];
  }

  lemma BodyIsRead(a: App, sp: Spelling)
    requires Spellable(a, sp)
    ensures ParseBody(a.name, AuthLines(a.requireAuth, sp) + ProxyLines(a, sp)) == Some(a)
  {
    var auth, proxy := AuthLines(a.requireAuth, sp), ProxyLines(a, sp);
    var body := auth + proxy;
    ProxyTargetExactly(a, proxy);
    ProxyIsNoAuth(a, sp);
    BlocksDiffer("\t");
    MatchedExactly(body, "\t");
    hide Block, LegacyBlock, ProxyLines, MatchedLength, ProxyTarget;
    assert body[|auth|..] == proxy;
    if !a.requireAuth {
      assert body == proxy;
    }
  }

  lemma BodyIsSpelled(a: App, body: seq<string>) returns (sp: Spelling)
    requires ParseBody(a.name, body) == Some(a)
    ensures Spellable(a, sp) && body == AuthLines(a.requireAuth, sp) + ProxyLines(a, sp)
  {
    var n := MatchedLength(body, "\t");
    var proxy := body[n..];
    assert ProxyTarget(a.name, proxy) == Some(a.target) && a.requireAuth == (n > 0);
    hide *;
    ProxyTargetExactly(a, proxy);
    sp := SomeSpelling(a, proxy, n == 3);
    assert body == body[..n] + proxy;
    assert body[..n] == AuthLines(a.requireAuth, sp) by { MatchedAuth(body, sp); }
  }

  lemma MatchedAuth(body: seq<string>, sp: Spelling)
    requires sp.legacyAuth == (MatchedLength(body, "\t") == 3)
    ensures var n := MatchedLength(body, "\t"); body[..n] == AuthLines(n > 0, sp)
  {
  }

  lemma SomeSpelling(a: App, proxy: seq<string>, legacy: bool) returns (sp: Spelling)
    requires exists sp :: Spellable(a, sp) && proxy == ProxyLines(a, sp)
    ensures Spellable(a, sp) && proxy == ProxyLines(a, sp) && sp.legacyAuth == legacy
  {
    hide HeaderDown, CookieLine;
    sp :| Spellable(a, sp) && proxy == ProxyLines(a, sp);
    sp := sp.(legacyAuth := legacy);
  }

  ghost predicate Spells(name: string, lines: seq<string>, a: App) {
    a.name == name && exists sp :: Spellable(a, sp) && lines == AppLines(a, sp)
  }

  lemma ParseLinesExactly(name: string, lines: seq<string>, a: App)
    ensures ParseLines(name, lines) == Some(a) <==> Spells(name, lines, a)
  {
    hide HeaderLine, Spellable, ProxyLines, ParseBody, AuthLines;
    if ParseLines(name, lines) == Some(a) {
      var body := lines[1..|lines| - 1];
      assert a.name == name by { assert ParseBody(name, body) == Some(a); ParsedName(name, body); }
      var sp := BodyIsSpelled(a, body);
      assert lines == [lines[0]] + body + ["}"];
    }
    if Spells(name, lines, a) {
      var sp :| Spellable(a, sp) && lines == AppLines(a, sp);
      BodyIsRead(a, sp);
      var body := AuthLines(a.requireAuth, sp) + ProxyLines(a, sp);
      assert lines[1..|lines| - 1] == body;
      assert body != [] by { assert ParseBody(name, []) == None by { EmptyBody(name); } }
    }
  }

  lemma ParsedName(name: string, body: seq<string>)
    ensures ParseBody(name, body).Some? ==> ParseBody(name, body).value.name == name
  {
  }

  lemma EmptyBody(name: string)
    ensures ParseBody(name, []) == None
  {
  }

  /** The text, without its trailing blank lines, is a spelling of a. */
  ghost predicate SpelledBy(name: string, content: string, a: App) {
    exists lines :: Spells(name, lines, a) && OnlyBlanksFollow(Split(content), lines)
  }

  /** A fragment parses to a exactly when it is, up to trailing blank lines, one of the
      spellings of a. */
  lemma AcceptedLanguage(name: string, content: string, a: App)
    ensures Parse(name, content) == Some(a) <==> SpelledBy(name, content, a)
  {
    var all := Split(content);
    var kept := DropBlankTail(all);
    DropBlankTailExactly(all, kept);
    ParseLinesExactly(name, kept, a);
    hide Spells, Blank, ParseLines, DropBlankTail, Split;
    if SpelledBy(name, content, a) {
      var lines :| Spells(name, lines, a) && OnlyBlanksFollow(all, lines);
      SpellingEnds(name, lines, a);
      DropBlankTailExactly(all, lines);
    }
  }

  lemma SpellingEnds(name: string, lines: seq<string>, a: App)
    requires Spells(name, lines, a)
    ensures |lines| > 0 && !Blank(lines[|lines| - 1])
  {
    hide HeaderLine, ProxyLines, AuthLines, Spellable;
    assert lines[|lines| - 1] == "}";
    assert lines[|lines| - 1][0] == '}';
  }

  // ------------------------------------------------------------ print and parse

  lemma AppLinesHaveNoNewline(a: App)
    requires NoNewline(a.name) && NoNewline(a.target)
    ensures AllNoNewline(AppLines(a, CURRENT))
  {
    BlockHasNoNewline("\t");
    LinesHaveNoNewline(a.name, a.target);
    var head, auth, proxy, close := [HeaderLine(a.name)], AuthLines(a.requireAuth, CURRENT), ProxyLines(a, CURRENT), ["}"];
    assert AppLines(a, CURRENT) == head + (auth + proxy) + close;
    ProxyHasNoNewline(a);
    assert AllNoNewline(auth) by { hide Block, LegacyBlock, NoNewline; }
    hide *;
    assert AllNoNewline(head) && AllNoNewline(close) by { SinglesHaveNoNewline(HeaderLine(a.name)); }
    AppendNoNewline(auth, proxy);
    AppendNoNewline(head, auth + proxy);
    AppendNoNewline(head + (auth + proxy), close);
  }

  lemma SinglesHaveNoNewline(line: string)
    requires NoNewline(line)
    ensures AllNoNewline([line]) && AllNoNewline(["}"])
  {
  }

  lemma ProxyHasNoNewline(a: App)
    requires NoNewline(a.name) && NoNewline(a.target)
    ensures AllNoNewline(ProxyLines(a, CURRENT))
  {
    LinesHaveNoNewline(a.name, a.target);
    hide HeaderDown, CookieLine, NoNewline;
    assert ProxyLine(a.target, CURRENT) == REVERSE_PROXY + a.target + OPEN;
  }

  lemma LinesHaveNoNewline(name: string, target: string)
    requires NoNewline(name) && NoNewline(target)
    ensures NoNewline(HeaderLine(name)) && NoNewline(HeaderDown(name)) && NoNewline(CookieLine())
    ensures NoNewline(REVERSE_PROXY + target + OPEN) && NoNewline("\t}") && NoNewline("}")
  {
    BlockStart("");
    hide Quote, StripTinyauthCookies;
    assert NoNewline("\t\theader_down Location ") && NoNewline("handle_path /app/");
  }

  /** What is printed parses back to the same app. */
  lemma PrintThenParse(a: App)
    requires NoNewline(a.name) && NoNewline(a.target)
    ensures Parse(a.name, Rendered(a)) == Some(a)
  {
    var lines := AppLines(a, CURRENT);
    assert Rendered(a) == Unlines(lines);
    AppLinesHaveNoNewline(a);
    SplitUnlines(lines);
    hide *;
    assert Spells(a.name, lines, a) by { CurrentIsSpelling(a); }
    assert SpelledBy(a.name, Rendered(a), a) by { SplitIsSpelling(a.name, Rendered(a), a, lines); }
    AcceptedLanguage(a.name, Rendered(a), a);
  }

  lemma CurrentIsSpelling(a: App)
    ensures Spells(a.name, AppLines(a, CURRENT), a)
  {
  }

  lemma SplitIsSpelling(name: string, content: string, a: App, lines: seq<string>)
    requires Spells(name, lines, a) && Split(content) == lines + [""]
    ensures SpelledBy(name, content, a)
  {
  }

  lemma ParsedIsPlain(name: string, content: string, a: App)
    requires Parse(name, content) == Some(a)
    ensures a.name == name && NoNewline(name) && NoNewline(a.target)
  {
    SplitHasNoNewline(content);
    AcceptedLanguage(name, content, a);
    hide Split, Parse, Spells, NoNewline;
    var lines :| Spells(name, lines, a) && OnlyBlanksFollow(Split(content), lines);
    assert AllNoNewline(lines);
    SpelledIsPlain(name, a, lines);
  }

  lemma SpelledIsPlain(name: string, a: App, lines: seq<string>)
    requires Spells(name, lines, a) && AllNoNewline(lines)
    ensures a.name == name && NoNewline(name) && NoNewline(a.target)
  {
    hide AppLines, NoNewline;
    var sp :| Spellable(a, sp) && lines == AppLines(a, sp);
    LinesArePlain(a, sp);
  }

  lemma HeaderHoldsName(name: string)
    ensures NoNewline(HeaderLine(name)) ==> NoNewline(name)
  {
  }

  lemma LinesArePlain(a: App, sp: Spelling)
    requires Spellable(a, sp) && AllNoNewline(AppLines(a, sp))
    ensures NoNewline(a.name) && NoNewline(a.target)
  {
    HeaderHoldsName(a.name);
    assert AppLines(a, sp)[0] == HeaderLine(a.name);
    hide HeaderLine, HeaderDown, CookieLine, Block, LegacyBlock, AuthLines;
    var n := |AuthLines(a.requireAuth, sp)|;
    assert AppLines(a, sp)[n + 1] == ProxyLine(a.target, sp);
    assert REVERSE_PROXY + a.target + OPEN == REVERSE_PROXY + (a.target + OPEN);
  }

  /** Printing what was parsed and parsing again gives the same app, for all text. */
  lemma ParsePrintParse(name: string, content: string)
    requires Parse(name, content).Some?
    ensures Parse(name, Rendered(Parse(name, content).value)) == Parse(name, content)
  {
    var a := Parse(name, content).value;
    ParsedIsPlain(name, content, a);
    PrintThenParse(a);
  }

  // -------------------------------------------------------------- authentication

  lemma LinesOpenNone(a: App, sp: Spelling)
    ensures !OpensForwardAuth(HeaderLine(a.name)) && !OpensForwardAuth(ProxyLine(a.target, sp))
    ensures !OpensForwardAuth(HeaderDown(a.name)) && !OpensForwardAuth(CookieLine())
    ensures !OpensForwardAuth("\t}") && !OpensForwardAuth("}")
  {
    hide OpensForwardAuth, Quote;
    AfterTabs(HeaderLine(a.name), 0);
    AfterTabs(ProxyLine(a.target, sp), 1);
    AfterTabs(HeaderDown(a.name), 2);
    assert CookieLine()[2] == 'h';
    AfterTabs(CookieLine(), 2);
    AfterTabs("\t}", 1);
    AfterTabs("}", 0);
  }

  lemma ProxyOpensNone(a: App, sp: Spelling)
    ensures CountForwardAuth(ProxyLines(a, sp)) == 0
  {
    LinesOpenNone(a, sp);
    hide HeaderDown, CookieLine, ProxyLine, OpensForwardAuth, CountForwardAuth;
    NoneOpens(ProxyLines(a, sp));
  }

  lemma SpelledOpens(a: App, sp: Spelling)
    ensures CountForwardAuth(AppLines(a, sp)) == if a.requireAuth then 1 else 0
  {
    var head, auth, proxy, close := [HeaderLine(a.name)], AuthLines(a.requireAuth, sp), ProxyLines(a, sp), ["}"];
    assert AppLines(a, sp) == head + (auth + proxy) + close;
    assert CountForwardAuth([]) == 0;
    hide *;
    LinesOpenNone(a, sp);
    NoneOpens(head);
    NoneOpens(close);
    ProxyOpensNone(a, sp);
    AuthOpens(a.requireAuth, sp);
    CountAppend(auth, proxy);
    CountAppend(head, auth + proxy);
    CountAppend(head + (auth + proxy), close);
  }

  lemma AuthOpens(requireAuth: bool, sp: Spelling)
    ensures CountForwardAuth(AuthLines(requireAuth, sp)) == if requireAuth then 1 else 0
  {
    OneBlockOpensOnce("\t");
    hide Block, LegacyBlock, OpensForwardAuth;
  }

  /** A text that parses opens one forward_auth block, in either spelling, if and only
      if the parsed app requires authentication. */
  lemma ParsedAuthIsThere(name: string, content: string)
    requires Parse(name, content).Some?
    ensures CountForwardAuth(Split(content)) == if Parse(name, content).value.requireAuth then 1 else 0
  {
    var a := Parse(name, content).value;
    AcceptedLanguage(name, content, a);
    hide *;
    assert SpelledBy(name, content, a);
    SpelledTextOpens(name, content, a);
  }

  lemma SpelledTextOpens(name: string, content: string, a: App)
    requires SpelledBy(name, content, a)
    ensures CountForwardAuth(Split(content)) == if a.requireAuth then 1 else 0
  {
    hide Split, Blank, AppLines, OpensForwardAuth, CountForwardAuth;
    var all := Split(content);
    var lines :| Spells(name, lines, a) && OnlyBlanksFollow(all, lines);
    var sp :| Spellable(a, sp) && lines == AppLines(a, sp);
    SpelledOpens(a, sp);
    var blanks := all[|lines|..];
    assert all == lines + blanks;
    CountAppend(lines, blanks);
    forall i | 0 <= i < |blanks| ensures !OpensForwardAuth(blanks[i]) {
      BlankOpensNothing(blanks[i]);
    }
    NoneOpens(blanks);
  }
}
