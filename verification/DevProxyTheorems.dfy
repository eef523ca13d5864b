/** What parsing, printing and normalizing Dev Proxy fragments keep, for every text. */
module DevProxyTheorems {
  import opened Text
  import opened ForwardAuth
  import opened DevProxy
  import opened Options
  import opened DevProxyParser
  import opened DevProxyLanguage

  /** The text, without its trailing blank lines, is a spelling of e. */
  ghost predicate SpelledBy(name: string, content: string, e: Expose) {
    exists lines :: Spells(name, lines, e) && OnlyBlanksFollow(Split(content), lines)
  }

  /** A fragment parses to e exactly when it is, up to trailing blank lines, one of the
      spellings of e. */
  lemma AcceptedLanguage(name: string, content: string, e: Expose)
    ensures Parse(name, content) == Some(e) <==> SpelledBy(name, content, e)
  {
    var all := Split(content);
    var kept := DropBlankTail(all);
    DropBlankTailExactly(all, kept);
    ParseLinesExactly(name, kept, e);
    hide Spells, Blank, ParseLines, DropBlankTail, Split;
    if SpelledBy(name, content, e) {
      var lines :| Spells(name, lines, e) && OnlyBlanksFollow(all, lines);
      SpellingEnds(name, lines, e);
      DropBlankTailExactly(all, lines);
    }
  }

  lemma SpellingEnds(name: string, lines: seq<string>, e: Expose)
    requires Spells(name, lines, e)
    ensures |lines| > 0 && !Blank(lines[|lines| - 1])
  {
    hide HostLine, HandleLine, BodyLines, Spellable;
    assert lines[|lines| - 1] == "}";
    assert lines[|lines| - 1][0] == '}';
  }

  // ------------------------------------------------------------ print and parse

  predicate Plain(rt: Route) {
    NoNewline(rt.path) && NoNewline(rt.target) && NoNewline(rt.stripPrefix) && NoNewline(rt.rewritePrefix) && NoNewline(rt.mode)
  }

  /** No field spans lines: true of everything that validates or that was parsed. */
  predicate PlainExpose(e: Expose) {
    NoNewline(e.name) && NoNewline(e.host) && forall i :: 0 <= i < |e.routes| ==> Plain(e.routes[i])
  }

  lemma RouteLinesHaveNoNewline(rt: Route)
    requires Plain(rt)
    ensures AllNoNewline(RouteLines(rt, CURRENT))
  {
    BlockHasNoNewline("\t\t");
    assert NoNewline(CookieLine());
    hide Block, LegacyBlock, CookieLine;
    assert NoNewline(HeaderLine(rt.mode, rt.path));
    assert AllNoNewline(RestLines(rt, CURRENT));
  }

  lemma {:induction false} BodyLinesHaveNoNewline(routes: seq<Route>, sps: seq<Spelling>)
    requires |routes| == |sps| && forall i :: 0 <= i < |routes| ==> Plain(routes[i]) && sps[i] == CURRENT
    ensures AllNoNewline(BodyLines(routes, sps))
  {
    hide RouteLines, Plain;
    if routes != [] {
      RouteLinesHaveNoNewline(routes[0]);
      assert forall i :: 0 <= i < |routes| - 1 ==> routes[1..][i] == routes[i + 1] && sps[1..][i] == sps[i + 1];
      BodyLinesHaveNoNewline(routes[1..], sps[1..]);
    }
  }

  lemma ExposeLinesHaveNoNewline(e: Expose)
    requires PlainExpose(e)
    ensures AllNoNewline(ExposeLines(e, Current(|e.routes|), true))
  {
    BodyLinesHaveNoNewline(e.routes, Current(|e.routes|));
    hide BodyLines, Plain;
  }

  predicate HasModes(e: Expose) {
    forall i :: 0 <= i < |e.routes| ==> e.routes[i].mode == "route" || e.routes[i].mode == "handle"
  }

  lemma CurrentIsSpelling(e: Expose)
    requires PlainExpose(e) && HasModes(e)
    ensures Spells(e.name, ExposeLines(e, Current(|e.routes|), true), e)
  {
  }

  /** What is printed parses back to the same expose, with any number of routes. */
  lemma PrintThenParse(e: Expose)
    requires PlainExpose(e) && HasModes(e)
    ensures Parse(e.name, Rendered(e)) == Some(e)
  {
    assert NormalizedRoutes(e.routes) == e.routes;
    var lines := ExposeLines(e, Current(|e.routes|), true);
    assert Rendered(e) == Unlines(lines);
    assert Blank("");
    CurrentIsSpelling(e);
    ExposeLinesHaveNoNewline(e);
    SplitUnlines(lines);
    hide *;
    assert SpelledBy(e.name, Rendered(e), e) by { SplitIsSpelling(e.name, Rendered(e), e, lines); }
    AcceptedLanguage(e.name, Rendered(e), e);
  }

  lemma SplitIsSpelling(name: string, content: string, e: Expose, lines: seq<string>)
    requires Spells(name, lines, e) && Split(content) == lines + [""]
    ensures SpelledBy(name, content, e)
  {
  }

  /** Nothing that comes out of the parser spans lines. */
  lemma ParsedIsPlain(name: string, content: string, e: Expose)
    requires Parse(name, content) == Some(e)
    ensures PlainExpose(e) && HasModes(e)
  {
    SplitHasNoNewline(content);
    var all := Split(content);
    var lines := DropBlankTail(all);
    DropBlankTailShrinks(all);
    assert AllNoNewline(lines);
    ParseLinesExactly(name, lines, e);
    var sps, placeholder :| AllSpellable(e.routes, sps) && lines == ExposeLines(e, sps, placeholder);
    SpelledIsPlain(e, sps, placeholder);
  }

  lemma SpelledIsPlain(e: Expose, sps: seq<Spelling>, placeholder: bool)
    requires AllSpellable(e.routes, sps) && AllNoNewline(ExposeLines(e, sps, placeholder))
    ensures PlainExpose(e) && HasModes(e)
  {
    var lines := ExposeLines(e, sps, placeholder);
    var body := BodyLines(e.routes, sps);
    assert NoNewline(lines[0]);
    assert NoNewline(e.host) && NoNewline(e.name) by {
      assert lines[0] == ("@" + e.name + " host ") + e.host;
      assert lines[0] == "@" + (e.name + (" host " + e.host));
    }
    if e.routes != [] {
      assert forall i :: 0 <= i < |body| ==> body[i] == lines[i + 2];
      BodyIsPlain(e.routes, sps);
    }
    forall i | 0 <= i < |e.routes| ensures e.routes[i].mode == "route" || e.routes[i].mode == "handle" {
      assert Spellable(e.routes[i], sps[i]);
    }
  }

  lemma {:induction false} BodyIsPlain(routes: seq<Route>, sps: seq<Spelling>)
    requires AllSpellable(routes, sps) && AllNoNewline(BodyLines(routes, sps))
    ensures forall i :: 0 <= i < |routes| ==> Plain(routes[i])
  {
    if routes != [] {
      var first, rest := RouteLines(routes[0], sps[0]), BodyLines(routes[1..], sps[1..]);
      assert BodyLines(routes, sps) == first + rest;
      assert forall i :: 0 <= i < |first| ==> first[i] == (first + rest)[i];
      assert forall i :: 0 <= i < |rest| ==> rest[i] == (first + rest)[i + |first|];
      TailSpellable(routes, sps);
      RouteIsPlain(routes[0], sps[0]);
      hide RouteLines, Spellable, Plain;
      BodyIsPlain(routes[1..], sps[1..]);
      assert forall i :: 1 <= i < |routes| ==> routes[i] == routes[1..][i - 1];
    }
  }

  lemma RouteIsPlain(rt: Route, sp: Spelling)
    requires Spellable(rt, sp) && AllNoNewline(RouteLines(rt, sp))
    ensures Plain(rt)
  {
    var n := 1 + |AuthLines(rt.requireAuth, sp)|;
    var rest := RestLines(rt, sp);
    hide Block, LegacyBlock, AuthLines, RestLines;
    assert forall i :: 0 <= i < |rest| ==> rest[i] == RouteLines(rt, sp)[n + i];
    RestIsPlain(rt, sp);
  }

  lemma RestIsPlain(rt: Route, sp: Spelling)
    requires AllNoNewline(RestLines(rt, sp))
    ensures NoNewline(rt.stripPrefix) && NoNewline(rt.rewritePrefix) && NoNewline(rt.target)
  {
    hide CookieLine;
    var strips, rewrites := StripLines(rt.stripPrefix, sp), RewriteLines(rt.rewritePrefix, sp);
    var rest := RestLines(rt, sp);
    assert strips != [] ==> rest[0] == STRIP_PREFIX + rt.stripPrefix;
    assert rewrites != [] ==> rest[|strips|] == REWRITE + (rt.rewritePrefix + URI);
    assert rest[|strips| + |rewrites|] == REVERSE_PROXY + (rt.target + if sp.bareProxy then "" else OPEN);
  }

  /** Printing what was parsed and parsing again gives the same expose, for all text. */
  lemma ParsePrintParse(name: string, content: string)
    requires Parse(name, content).Some?
    ensures Parse(name, Rendered(Parse(name, content).value)) == Parse(name, content)
  {
    var e := Parse(name, content).value;
    ParsedIsPlain(name, content, e);
    ParseLinesExactly(name, DropBlankTail(Split(content)), e);
    PrintThenParse(e);
  }

  // -------------------------------------------------------------- authentication

  function CountAuthRoutes(routes: seq<Route>): nat {
    if routes == [] then 0 else (if routes[0].requireAuth then 1 else 0) + CountAuthRoutes(routes[1..])
  }

  lemma RestOpensNone(rt: Route, sp: Spelling)
    ensures CountForwardAuth(RestLines(rt, sp)) == 0
  {
    assert CookieLine()[3] == 'h' && CookieLine()[..3] == "\t\t\t";
    hide OpensForwardAuth, CookieLine;
    AfterTabs(STRIP_PREFIX + rt.stripPrefix, 2);
    AfterTabs(REWRITE + rt.rewritePrefix + URI, 2);
    AfterTabs(REVERSE_PROXY + rt.target, 2);
    AfterTabs(REVERSE_PROXY + rt.target + OPEN, 2);
    AfterTabs(CookieLine(), 3);
    AfterTabs("\t\t}", 2);
    AfterTabs("\t}", 1);
    NoneOpens(RestLines(rt, sp));
  }

  lemma RouteOpens(rt: Route, sp: Spelling)
    requires Spellable(rt, sp)
    ensures CountForwardAuth(RouteLines(rt, sp)) == if rt.requireAuth then 1 else 0
  {
    var header, auth, rest := HeaderLine(rt.mode, rt.path), AuthLines(rt.requireAuth, sp), RestLines(rt, sp);
    assert header[1] == 'r' || header[1] == 'h';
    AfterTabs(header, 1);
    OneBlockOpensOnce("\t\t");
    RestOpensNone(rt, sp);
    hide Block, LegacyBlock, RestLines, HeaderLine, OpensForwardAuth, TrimTabs;
    CountAppend([header], auth + rest);
    CountAppend(auth, rest);
    assert [header][1..] == [];
  }

  lemma {:induction false} BodyOpens(routes: seq<Route>, sps: seq<Spelling>)
    requires AllSpellable(routes, sps)
    ensures CountForwardAuth(BodyLines(routes, sps)) == CountAuthRoutes(routes)
  {
    if routes != [] {
      RouteOpens(routes[0], sps[0]);
      TailSpellable(routes, sps);
      hide RouteLines, Spellable, OpensForwardAuth;
      CountAppend(RouteLines(routes[0], sps[0]), BodyLines(routes[1..], sps[1..]));
      BodyOpens(routes[1..], sps[1..]);
    }
  }

  lemma SpelledOpens(e: Expose, sps: seq<Spelling>, placeholder: bool)
    requires AllSpellable(e.routes, sps)
    ensures CountForwardAuth(ExposeLines(e, sps, placeholder)) == CountAuthRoutes(e.routes)
  {
    var head := [HostLine(e.name, e.host), HandleLine(e.name)];
    var body := if placeholder && e.routes == [] then [PLACEHOLDER] else BodyLines(e.routes, sps);
    AfterTabs(head[0], 0);
    AfterTabs(head[1], 0);
    AfterTabs(PLACEHOLDER, 1);
    AfterTabs("}", 0);
    NoneOpens(head);
    NoneOpens([PLACEHOLDER]);
    NoneOpens(["}"]);
    BodyOpens(e.routes, sps);
    hide BodyLines, Spellable, HostLine, HandleLine, OpensForwardAuth;
    CountAppend(head + body, ["}"]);
    CountAppend(head, body);
  }

  /** A text that parses opens exactly as many forward_auth blocks, in either spelling,
      as the parsed expose has routes that require authentication. */
  lemma ParsedAuthIsThere(name: string, content: string)
    requires Parse(name, content).Some?
    ensures CountForwardAuth(Split(content)) == CountAuthRoutes(Parse(name, content).value.routes)
  {
    var e := Parse(name, content).value;
    AcceptedLanguage(name, content, e);
    hide *;
    assert SpelledBy(name, content, e);
    SpelledTextOpens(name, content, e);
  }

  lemma SpelledTextOpens(name: string, content: string, e: Expose)
    requires SpelledBy(name, content, e)
    ensures CountForwardAuth(Split(content)) == CountAuthRoutes(e.routes)
  {
    hide Split, Blank, Spellable, ExposeLines, OpensForwardAuth, CountForwardAuth;
    var all := Split(content);
    var lines :| Spells(name, lines, e) && OnlyBlanksFollow(all, lines);
    var sps, placeholder :| AllSpellable(e.routes, sps) && lines == ExposeLines(e, sps, placeholder);
    SpelledOpens(e, sps, placeholder);
    var blanks := all[|lines|..];
    assert all == lines + blanks;
    CountAppend(lines, blanks);
    forall i | 0 <= i < |blanks| ensures !OpensForwardAuth(blanks[i]) {
      BlankOpensNothing(blanks[i]);
    }
    NoneOpens(blanks);
  }

  /** Re-printing never drops and never adds authentication. */
  lemma PrintKeepsAuth(name: string, content: string)
    requires Parse(name, content).Some?
    ensures CountForwardAuth(Split(Rendered(Parse(name, content).value))) == CountForwardAuth(Split(content))
  {
    ParsePrintParse(name, content);
    ParsedAuthIsThere(name, content);
    ParsedAuthIsThere(name, Rendered(Parse(name, content).value));
  }
}
