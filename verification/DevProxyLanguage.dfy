/** Exactly which texts Dev Proxy's parser accepts, and what follows for printing,
    re-printing and authentication. */
module DevProxyLanguage {
  import opened Text
  import opened ForwardAuth
  import opened DevProxy
  import opened Options
  import opened DevProxyParser

  // ------------------------------------------------------------- line by line

  lemma ModeMatchExactly(line: string, mode: string, path: string)
    ensures ModeMatch(line, mode) == Some(path) <==> NoNewline(path) && line == HeaderLine(mode, path)
  {
    var d := "\t" + mode;
    if NoNewline(path) && line == HeaderLine(mode, path) {
      assert line[|d|..] == (if path == "" then OPEN else " " + path + OPEN);
      assert path != "" ==> (" " + path + OPEN)[1..|path| + 1] == path;
    }
    if ModeMatch(line, mode) == Some(path) {
      var rest := line[|d|..];
      assert line == d + rest;
      if rest != OPEN {
        assert rest == " " + path + OPEN;
      }
    }
  }

  lemma HeaderExactly(line: string, mode: string, path: string)
    ensures HeaderMatch(line) == Some((mode, path)) <==>
      (mode == "route" || mode == "handle") && NoNewline(path) && line == HeaderLine(mode, path)
  {
    ModeMatchExactly(line, "route", path);
    ModeMatchExactly(line, "handle", path);
    if ModeMatch(line, "route").Some? {
      ModeMatchExactly(line, "route", ModeMatch(line, "route").value);
      assert line[1] == 'r';
    }
    assert HeaderLine("handle", path)[1] == 'h';
  }

  /** No line of another kind starts like the one a Take function looks for. */
  lemma LineKinds(x: string)
    ensures !(FORWARD_AUTH <= STRIP_PREFIX + x) && !(FORWARD_AUTH <= REWRITE + x) && !(FORWARD_AUTH <= REVERSE_PROXY + x)
    ensures !(STRIP_PREFIX <= REWRITE + x) && !(STRIP_PREFIX <= REVERSE_PROXY + x)
    ensures !(REWRITE <= REVERSE_PROXY + x)
  {
    assert FORWARD_AUTH[2] == 'f' && STRIP_PREFIX[2] == 'u' && REWRITE[2] == 'r' && REVERSE_PROXY[2] == 'r';
    assert (STRIP_PREFIX + x)[2] == 'u' && (REWRITE + x)[2] == 'r' && (REVERSE_PROXY + x)[2] == 'r';
    assert REWRITE[4] == 'w' && (REVERSE_PROXY + x)[4] == 'v';
  }

  lemma TakeAuthExactly(lines: seq<string>, auth: bool, rest: seq<string>)
    ensures TakeAuth(lines) == Taken(auth, rest) <==>
      if auth then lines == Block("\t\t") + rest || lines == LegacyBlock("\t\t") + rest
      else lines == rest && !StartsWith(rest, FORWARD_AUTH)
  {
    BlocksDiffer("\t\t");
    MatchedExactly(lines, "\t\t");
    assert FORWARD_AUTH == "\t\t" + "forward_auth ";
    var n := MatchedLength(lines, "\t\t");
    hide Block, LegacyBlock, MatchedLength;
    if n > 0 {
      assert lines == lines[..n] + lines[n..];
      assert lines[0] == Block("\t\t")[0];
    }
  }

  lemma TakeStripExactly(lines: seq<string>, prefix: string, rest: seq<string>)
    ensures TakeStrip(lines) == (prefix, rest) <==>
      lines == [STRIP_PREFIX + prefix] + rest || (prefix == "" && lines == rest && !StartsWith(rest, STRIP_PREFIX))
  {
    if StartsWith(lines, STRIP_PREFIX) {
      assert lines[0] == STRIP_PREFIX + lines[0][|STRIP_PREFIX|..];
      assert lines == [lines[0]] + lines[1..];
    }
    if lines == [STRIP_PREFIX + prefix] + rest {
      assert lines[1..] == rest && (STRIP_PREFIX + prefix)[|STRIP_PREFIX|..] == prefix;
    }
  }

  /** The two ends of a rewrite line cannot overlap, so what lies between them is the prefix. */
  lemma RewriteLineExactly(line: string, prefix: string)
    ensures REWRITE <= line && HasSuffix(line, URI) && TrimSuffix(line[|REWRITE|..], URI) == prefix
       <==> line == REWRITE + prefix + URI
  {
    if REWRITE <= line && HasSuffix(line, URI) {
      assert line[|line| - 5] == URI[0] == '{';
      assert |line| - 5 >= |REWRITE|;
      var tail := line[|REWRITE|..];
      assert HasSuffix(tail, URI);
      assert line == REWRITE + tail && tail == tail[..|tail| - 5] + URI;
      assert line == REWRITE + tail[..|tail| - 5] + URI;
    }
    if line == REWRITE + prefix + URI {
      assert line == REWRITE + (prefix + URI);
      assert line[|REWRITE|..] == prefix + URI;
    }
  }

  lemma TakeRewriteExactly(lines: seq<string>, prefix: string, rest: seq<string>)
    ensures TakeRewrite(lines) == (prefix, rest) <==>
      lines == [REWRITE + prefix + URI] + rest
      || (prefix == "" && lines == rest && !(StartsWith(rest, REWRITE) && HasSuffix(rest[0], URI)))
  {
    if lines != [] {
      RewriteLineExactly(lines[0], prefix);
      RewriteLineExactly(lines[0], TrimSuffix(lines[0][if REWRITE <= lines[0] then |REWRITE| else 0..], URI));
      assert lines == [lines[0]] + lines[1..];
    }
    hide HasSuffix, TrimSuffix;
    if lines == [REWRITE + prefix + URI] + rest {
      assert lines[0] == REWRITE + prefix + URI && lines[1..] == rest;
    }
  }

  lemma TakeProxyExactly(lines: seq<string>, target: string, rest: seq<string>)
    ensures TakeProxy(lines) == Taken(target, rest) <==>
      || lines == [REVERSE_PROXY + target + OPEN, CookieLine(), "\t\t}"] + rest
      || (lines == [REVERSE_PROXY + target] + rest && !HasSuffix(target, OPEN))
  {
    hide CookieLine;
    if StartsWith(lines, REVERSE_PROXY) {
      var t := lines[0][|REVERSE_PROXY|..];
      assert lines[0] == REVERSE_PROXY + t;
      assert lines == [lines[0]] + lines[1..];
      if HasSuffix(t, OPEN) && |lines| >= 3 {
        assert t == t[..|t| - 2] + OPEN;
        assert lines == [lines[0], lines[1], lines[2]] + lines[3..];
        assert REVERSE_PROXY + t == REVERSE_PROXY + t[..|t| - 2] + OPEN;
      }
    }
    if lines == [REVERSE_PROXY + target] + rest {
      assert lines[0][|REVERSE_PROXY|..] == target && lines[1..] == rest;
    }
    if lines == [REVERSE_PROXY + target + OPEN, CookieLine(), "\t\t}"] + rest {
      assert lines[0] == REVERSE_PROXY + (target + OPEN);
      assert lines[0][|REVERSE_PROXY|..] == target + OPEN && lines[3..] == rest;
      assert HasSuffix(target + OPEN, OPEN) && (target + OPEN)[..|target|] == target;
    }
  }

  // ------------------------------------------------------------ route by route

  lemma RestIsSpelled(lines: seq<string>, rt: Route, rest: seq<string>, legacy: bool) returns (sp: Spelling)
    requires TakeRest(lines) == Taken((rt.stripPrefix, rt.rewritePrefix, rt.target), rest)
    ensures lines == RestLines(rt, sp) + rest
    ensures sp.legacyAuth == legacy && (sp.bareProxy ==> !HasSuffix(rt.target, OPEN))
  {
    hide TakeStrip, TakeRewrite, TakeProxy, HasSuffix, CookieLine, StartsWith;
    var (strip, l1) := TakeStrip(lines);
    var (rewrite, l2) := TakeRewrite(l1);
    var l3 := TakeProxy(l2).rest;
    TakeStripExactly(lines, strip, l1);
    TakeRewriteExactly(l1, rewrite, l2);
    TakeProxyExactly(l2, rt.target, l3);
    sp := Spelling(legacy, lines == [STRIP_PREFIX + strip] + l1, l1 == [REWRITE + rewrite + URI] + l2,
                   l2 == [REVERSE_PROXY + rt.target] + l3 && !HasSuffix(rt.target, OPEN));
    assert l3 == ["\t}"] + rest;
    assert lines == StripLines(strip, sp) + l1;
    assert l1 == RewriteLines(rewrite, sp) + l2;
    assert l2 == ProxyLines(rt.target, sp) + l3;
    Regrouped(StripLines(strip, sp), RewriteLines(rewrite, sp), ProxyLines(rt.target, sp), ["\t}"], rest);
  }

  lemma Regrouped(a: seq<string>, b: seq<string>, c: seq<string>, d: seq<string>, e: seq<string>)
    ensures a + (b + (c + (d + e))) == (a + (b + (c + d))) + e
  {
  }

  /** None of the lines the parser looks for earlier. */
  predicate NotBefore(lines: seq<string>, kinds: seq<string>) {
    forall i :: 0 <= i < |kinds| ==> !StartsWith(lines, kinds[i])
  }

  lemma ProxyIsRead(target: string, sp: Spelling, rest: seq<string>)
    requires sp.bareProxy ==> !HasSuffix(target, OPEN)
    ensures TakeProxy(ProxyLines(target, sp) + rest) == Taken(target, rest)
    ensures NotBefore(ProxyLines(target, sp) + rest, [FORWARD_AUTH, STRIP_PREFIX, REWRITE])
  {
    var lines := ProxyLines(target, sp) + rest;
    var tail := target + if sp.bareProxy then "" else OPEN;
    LineKinds(tail);
    assert lines[0] == REVERSE_PROXY + tail;
    TakeProxyExactly(lines, target, rest);
    hide TakeProxy, HasSuffix, CookieLine;
  }

  lemma RewriteIsRead(prefix: string, sp: Spelling, rest: seq<string>)
    requires NotBefore(rest, [FORWARD_AUTH, STRIP_PREFIX, REWRITE])
    ensures TakeRewrite(RewriteLines(prefix, sp) + rest) == (prefix, rest)
    ensures NotBefore(RewriteLines(prefix, sp) + rest, [FORWARD_AUTH, STRIP_PREFIX])
  {
    hide TakeRewrite, HasSuffix;
    var kinds := [FORWARD_AUTH, STRIP_PREFIX, REWRITE];
    assert kinds[0] == FORWARD_AUTH && kinds[1] == STRIP_PREFIX && kinds[2] == REWRITE;
    var lines := RewriteLines(prefix, sp) + rest;
    LineKinds(prefix + URI);
    assert REWRITE + prefix + URI == REWRITE + (prefix + URI);
    TakeRewriteExactly(lines, prefix, rest);
  }

  lemma StripIsRead(prefix: string, sp: Spelling, rest: seq<string>)
    requires NotBefore(rest, [FORWARD_AUTH, STRIP_PREFIX])
    ensures TakeStrip(StripLines(prefix, sp) + rest) == (prefix, rest)
    ensures !StartsWith(StripLines(prefix, sp) + rest, FORWARD_AUTH)
  {
    hide TakeStrip;
    var kinds := [FORWARD_AUTH, STRIP_PREFIX];
    assert kinds[0] == FORWARD_AUTH && kinds[1] == STRIP_PREFIX;
    LineKinds(prefix);
    TakeStripExactly(StripLines(prefix, sp) + rest, prefix, rest);
  }

  lemma RestIsRead(rt: Route, sp: Spelling, rest: seq<string>)
    requires Spellable(rt, sp)
    ensures TakeRest(RestLines(rt, sp) + rest) == Taken((rt.stripPrefix, rt.rewritePrefix, rt.target), rest)
    ensures !StartsWith(RestLines(rt, sp) + rest, FORWARD_AUTH)
  {
    hide TakeStrip, TakeRewrite, TakeProxy, HasSuffix, StripLines, RewriteLines, ProxyLines, NotBefore, StartsWith;
    var l3 := ["\t}"] + rest;
    var l2 := ProxyLines(rt.target, sp) + l3;
    var l1 := RewriteLines(rt.rewritePrefix, sp) + l2;
    ProxyIsRead(rt.target, sp, l3);
    RewriteIsRead(rt.rewritePrefix, sp, l2);
    StripIsRead(rt.stripPrefix, sp, l1);
    Regrouped(StripLines(rt.stripPrefix, sp), RewriteLines(rt.rewritePrefix, sp), ProxyLines(rt.target, sp), ["\t}"], rest);
    assert l3[1..] == rest;
  }

  lemma RegroupedRoute(a: seq<string>, b: seq<string>, c: seq<string>, d: seq<string>)
    ensures a + (b + (c + d)) == (a + (b + c)) + d
  {
  }

  lemma RouteIsSpelled(lines: seq<string>, rt: Route, rest: seq<string>) returns (sp: Spelling)
    requires TakeRoute(lines) == Taken(rt, rest)
    ensures Spellable(rt, sp) && lines == RouteLines(rt, sp) + rest
  {
    hide HeaderMatch, TakeAuth, TakeRest, Block, LegacyBlock, RestLines, HeaderLine, HasSuffix, StartsWith, NoNewline, CookieLine;
    HeaderExactly(lines[0], rt.mode, rt.path);
    var l1 := TakeAuth(lines[1..]).rest;
    TakeAuthExactly(lines[1..], rt.requireAuth, l1);
    sp := RestIsSpelled(l1, rt, rest, lines[1..] == LegacyBlock("\t\t") + l1);
    var header, auth := [HeaderLine(rt.mode, rt.path)], AuthLines(rt.requireAuth, sp);
    assert lines[1..] == auth + l1;
    assert lines == header + lines[1..];
    RegroupedRoute(header, auth, RestLines(rt, sp), rest);
  }

  lemma RouteIsRead(rt: Route, sp: Spelling, rest: seq<string>)
    requires Spellable(rt, sp)
    ensures TakeRoute(RouteLines(rt, sp) + rest) == Taken(rt, rest)
  {
    hide HeaderMatch, TakeAuth, TakeRest, Block, LegacyBlock, RestLines, HeaderLine, HasSuffix, StartsWith, NoNewline, CookieLine;
    var lines := RouteLines(rt, sp) + rest;
    var l1 := RestLines(rt, sp) + rest;
    HeaderExactly(HeaderLine(rt.mode, rt.path), rt.mode, rt.path);
    RestIsRead(rt, sp, rest);
    TakeAuthExactly(AuthLines(rt.requireAuth, sp) + l1, rt.requireAuth, l1);
    var header, auth := [HeaderLine(rt.mode, rt.path)], AuthLines(rt.requireAuth, sp);
    RegroupedRoute(header, auth, RestLines(rt, sp), rest);
    assert lines == header + (auth + l1);
    assert lines[1..] == auth + l1;
  }

  lemma {:induction false} BodyIsSpelled(lines: seq<string>, routes: seq<Route>) returns (sps: seq<Spelling>)
    requires TakeBody(lines) == Some(routes)
    ensures AllSpellable(routes, sps) && lines == BodyLines(routes, sps)
    decreases |lines|
  {
    hide TakeRoute, RouteLines, Spellable;
    if lines == [] {
      return [];
    }
    var rest := TakeRoute(lines).rest;
    RouteTakesLines(lines);
    var sp := RouteIsSpelled(lines, routes[0], rest);
    var more := BodyIsSpelled(rest, routes[1..]);
    sps := [sp] + more;
    assert forall i :: 0 <= i < |routes| - 1 ==> routes[1..][i] == routes[i + 1];
    assert forall i :: 0 <= i < |routes| ==> Spellable(routes[i], sps[i]) by {
      assert forall i :: 1 <= i < |routes| ==> routes[i] == routes[1..][i - 1] && sps[i] == more[i - 1];
    }
    assert sps[1..] == more;
  }

  lemma TailSpellable(routes: seq<Route>, sps: seq<Spelling>)
    requires AllSpellable(routes, sps) && routes != []
    ensures AllSpellable(routes[1..], sps[1..])
  {
  }

  lemma {:induction false} BodyIsRead(routes: seq<Route>, sps: seq<Spelling>)
    requires AllSpellable(routes, sps)
    ensures TakeBody(BodyLines(routes, sps)) == Some(routes)
    decreases |routes|
  {
    hide TakeRoute, RouteLines, Spellable;
    if routes != [] {
      TailSpellable(routes, sps);
      BodyIsRead(routes[1..], sps[1..]);
      RouteIsRead(routes[0], sps[0], BodyLines(routes[1..], sps[1..]));
      RouteHasLines(routes[0], sps[0]);
      assert [routes[0]] + routes[1..] == routes;
    }
  }

  lemma RouteHasLines(rt: Route, sp: Spelling)
    ensures |RouteLines(rt, sp)| >= 3
  {
  }

  // ------------------------------------------------------- fragment by fragment

  /** The lines are a spelling of e, e's name being the fragment's file name. */
  ghost predicate Spells(name: string, lines: seq<string>, e: Expose) {
    e.name == name && exists sps, placeholder :: AllSpellable(e.routes, sps) && lines == ExposeLines(e, sps, placeholder)
  }

  lemma FramedLines(lines: seq<string>)
    requires |lines| >= 3
    ensures lines == [lines[0], lines[1]] + lines[2..|lines| - 1] + [lines[|lines| - 1]]
  {
  }

  lemma ParseLinesExactly(name: string, lines: seq<string>, e: Expose)
    ensures ParseLines(name, lines) == Some(e) <==> Spells(name, lines, e)
  {
    var hostPrefix := "@" + name + " host ";
    if ParseLines(name, lines) == Some(e) {
      var body := lines[2..|lines| - 1];
      assert lines[0] == hostPrefix + e.host;
      FramedLines(lines);
      if body == [PLACEHOLDER] {
        assert AllSpellable(e.routes, []) && lines == ExposeLines(e, [], true);
      } else {
        var sps := BodyIsSpelled(body, e.routes);
        hide TakeBody, BodyLines, Spellable, HandleLine;
        assert lines == ExposeLines(e, sps, false);
      }
    }
    if Spells(name, lines, e) {
      var sps, placeholder :| AllSpellable(e.routes, sps) && lines == ExposeLines(e, sps, placeholder);
      SpelledIsParsed(e, sps, placeholder);
    }
  }

  /** What ParseLines makes of a body between the right first two lines and the last. */
  lemma FrameIsParsed(name: string, host: string, body: seq<string>)
    ensures ParseLines(name, [HostLine(name, host), HandleLine(name)] + body + ["}"])
         == if body == [PLACEHOLDER] then Some(Expose(name, host, []))
            else if TakeBody(body).None? then None else Some(Expose(name, host, TakeBody(body).value))
  {
  }

  lemma SpelledIsParsed(e: Expose, sps: seq<Spelling>, placeholder: bool)
    requires AllSpellable(e.routes, sps)
    ensures ParseLines(e.name, ExposeLines(e, sps, placeholder)) == Some(e)
  {
    BodyIsRead(e.routes, sps);
    if e.routes != [] {
      RouteHasLines(e.routes[0], sps[0]);
      assert |BodyLines(e.routes, sps)| >= 3;
    }
    hide TakeBody, Spellable, HandleLine, HostLine, RouteLines, ParseLines;
    var body := if placeholder && e.routes == [] then [PLACEHOLDER] else BodyLines(e.routes, sps);
    FrameIsParsed(e.name, e.host, body);
  }
}
