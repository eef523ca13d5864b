/** parseStructured of Dev Proxy (backend/internal/devproxy/devproxy.go), one function
    per directive, each taking what it recognizes off the front of the lines. */
module DevProxyParser {
  import opened Text
  import opened ForwardAuth
  import opened DevProxy
  import opened Options

  datatype Taken<T> = Refused | Taken(value: T, rest: seq<string>)

  predicate StartsWith(lines: seq<string>, prefix: string) {
    lines != [] && prefix <= lines[0]
  }

  /** ^\t<mode>(?: (.+))? \{$ */
  function ModeMatch(line: string, mode: string): Option<string> {
    var directive := "\t" + mode;
    if !(directive <= line) then None
    else
      var rest := line[|directive|..];
      if rest == OPEN then Some("")
      else if |rest| > 3 && rest[0] == ' ' && HasSuffix(rest, OPEN) && NoNewline(rest[1..|rest| - 2])
      then Some(rest[1..|rest| - 2])
      else None
  }

  /** routeHeaderRe, as the mode and the path. */
  function HeaderMatch(line: string): Option<(string, string)> {
    match ModeMatch(line, "route")
    case Some(p) => Some(("route", p))
    case None =>
      match ModeMatch(line, "handle")
      case Some(p) => Some(("handle", p))
      case None => None
  }

  /** A forward_auth that is neither spelling of the block is refused. */
  function TakeAuth(lines: seq<string>): Taken<bool> {
    var n := MatchedLength(lines, "\t\t");
    if n > 0 then Taken(true, lines[n..])
    else if StartsWith(lines, FORWARD_AUTH) then Refused
    else Taken(false, lines)
  }

  function TakeStrip(lines: seq<string>): (string, seq<string>) {
    if StartsWith(lines, STRIP_PREFIX) then (lines[0][|STRIP_PREFIX|..], lines[1..]) else ("", lines)
  }

  function TakeRewrite(lines: seq<string>): (string, seq<string>) {
    if StartsWith(lines, REWRITE) && HasSuffix(lines[0], URI)
    then (TrimSuffix(lines[0][|REWRITE|..], URI), lines[1..])
    else ("", lines)
  }

  /** The block with the cookie strip, or the one-line form from before it. */
  function TakeProxy(lines: seq<string>): Taken<string> {
    if !StartsWith(lines, REVERSE_PROXY) then Refused
    else
      var t := lines[0][|REVERSE_PROXY|..];
      if HasSuffix(t, OPEN) then
        if |lines| < 3 || lines[1] != CookieLine() || lines[2] != "\t\t}" then Refused
        else Taken(t[..|t| - |OPEN|], lines[3..])
      else Taken(t, lines[1..])
  }

  /** parseRoute from the line after the header. */
  function TakeRest(lines: seq<string>): Taken<(string, string, string)> {
    var (strip, l1) := TakeStrip(lines);
    var (rewrite, l2) := TakeRewrite(l1);
    match TakeProxy(l2)
    case Refused => Refused
    case Taken(target, l3) =>
      if l3 == [] || l3[0] != "\t}" then Refused else Taken((strip, rewrite, target), l3[1..])
  }

  function TakeRoute(lines: seq<string>): Taken<Route> {
    if lines == [] then Refused
    else
      match HeaderMatch(lines[0])
      case None => Refused
      case Some((mode, path)) =>
        match TakeAuth(lines[1..])
        case Refused => Refused
        case Taken(auth, l1) =>
          match TakeRest(l1)
          case Refused => Refused
          case Taken((strip, rewrite, target), rest) =>
            Taken(Route(path, target, strip, rewrite, mode, auth), rest)
  }

  lemma RouteTakesLines(lines: seq<string>)
    ensures TakeRoute(lines).Taken? ==> |TakeRoute(lines).rest| < |lines|
  {
  }

  function TakeBody(lines: seq<string>): Option<seq<Route>>
    decreases |lines|
  {
    if lines == [] then Some([])
    else
      match TakeRoute(lines)
      case Refused => None
      case Taken(rt, rest) =>
        RouteTakesLines(lines);
        match TakeBody(rest)
        case None => None
        case Some(routes) => Some([rt] + routes)
  }

  /** parseStructured after the trailing blank lines are gone. */
  function ParseLines(name: string, lines: seq<string>): Option<Expose> {
    var hostPrefix := "@" + name + " host ";
    if |lines| < 3 || !(hostPrefix <= lines[0]) || lines[1] != HandleLine(name) || lines[|lines| - 1] != "}" then None
    else
      var host, body := lines[0][|hostPrefix|..], lines[2..|lines| - 1];
      if body == [PLACEHOLDER] then Some(Expose(name, host, []))
      else
        match TakeBody(body)
        case None => None
        case Some(routes) => Some(Expose(name, host, routes))
  }

  function Parse(name: string, content: string): Option<Expose> {
    ParseLines(name, DropBlankTail(Split(content)))
  }

  // ------------------------------------------------------------------- method

  /** parseRoute after the header and the forward_auth block. */
  method ParseRest(body: seq<string>, start: nat) returns (strip: string, rewrite: string, target: string, next: nat, ok: bool)
    requires start <= |body|
    ensures ok <==> TakeRest(body[start..]).Taken?
    ensures ok ==> start < next <= |body| && TakeRest(body[start..]) == Taken((strip, rewrite, target), body[next..])
  {
    hide TakeProxy, HasSuffix, TrimSuffix;
    ghost var lines := body[start..];
    assert forall k :: 0 <= k < |lines| ==> lines[k] == body[start + k];
    strip, rewrite, target, next, ok := "", "", "", start, false;
    var i := start;
    if i < |body| && STRIP_PREFIX <= body[i] {
      strip := body[i][|STRIP_PREFIX|..];
      i := i + 1;
    }
    assert TakeStrip(body[start..]) == (strip, body[i..]);
    ghost var l2 := body[i..];
    if i < |body| && REWRITE <= body[i] && HasSuffix(body[i], URI) {
      rewrite := TrimSuffix(body[i][|REWRITE|..], URI);
      i := i + 1;
    }
    assert TakeRewrite(l2) == (rewrite, body[i..]);
    target, i, ok := ParseProxy(body, i);
    if !ok || i >= |body| || body[i] != "\t}" {
      return strip, rewrite, target, i, false;
    }
    assert body[i..][1..] == body[i + 1..];
    return strip, rewrite, target, i + 1, true;
  }

  method ParseProxy(body: seq<string>, start: nat) returns (target: string, next: nat, ok: bool)
    requires start <= |body|
    ensures ok <==> TakeProxy(body[start..]).Taken?
    ensures start <= next <= |body|
    ensures ok ==> TakeProxy(body[start..]) == Taken(target, body[next..])
  {
    hide CookieLine;
    ghost var lines := body[start..];
    assert forall k :: 0 <= k < |lines| ==> lines[k] == body[start + k];
    if start >= |body| || !(REVERSE_PROXY <= body[start]) {
      return "", start, false;
    }
    var t := body[start][|REVERSE_PROXY|..];
    if HasSuffix(t, OPEN) {
      if start + 2 >= |body| || body[start + 1] != CookieLine() || body[start + 2] != "\t\t}" {
        assert TakeProxy(lines) == Refused;
        return "", start, false;
      }
      assert lines[3..] == body[start + 3..];
      return t[..|t| - |OPEN|], start + 3, true;
    }
    assert lines[1..] == body[start + 1..];
    return t, start + 1, true;
  }

  /** parseRoute: one route of body from line start, and the line after it. */
  method ParseRoute(body: seq<string>, start: nat) returns (rt: Route, next: nat, ok: bool)
    requires start <= |body|
    ensures ok <==> TakeRoute(body[start..]).Taken?
    ensures ok ==> start < next <= |body| && TakeRoute(body[start..]) == Taken(rt, body[next..])
  {
    hide HeaderMatch, MatchedLength, TakeRest;
    rt, next, ok := Route("", "", "", "", "", false), start, false;
    if start >= |body| {
      return;
    }
    var m := HeaderMatch(body[start]);
    if m == None {
      return;
    }
    var i := start + 1;
    assert body[start..][1..] == body[i..];
    var after, auth := MatchForwardAuth(body, i, "\t\t");
    assert auth ==> body[i..][MatchedLength(body[i..], "\t\t")..] == body[after..];
    if !auth && i < |body| && FORWARD_AUTH <= body[i] {
      return;
    }
    var strip, rewrite, target;
    strip, rewrite, target, next, ok := ParseRest(body, after);
    rt := Route(m.value.1, target, strip, rewrite, m.value.0, auth);
  }

  method ParseStructured(name: string, content: string) returns (e: Option<Expose>)
    ensures e == Parse(name, content)
  {
    hide HandleLine, TakeBody;
    var lines := Split(content);
    while |lines| > 0 && Blank(lines[|lines| - 1])
      invariant DropBlankTail(lines) == DropBlankTail(Split(content))
    {
      lines := lines[..|lines| - 1];
    }
    if |lines| < 3 {
      return None;
    }
    var hostPrefix := "@" + name + " host ";
    if !(hostPrefix <= lines[0]) {
      return None;
    }
    var host := lines[0][|hostPrefix|..];
    if lines[1] != HandleLine(name) || lines[|lines| - 1] != "}" {
      return None;
    }
    var body := lines[2..|lines| - 1];
    if |body| == 1 && body[0] == PLACEHOLDER {
      return Some(Expose(name, host, []));
    }
    assert body != [PLACEHOLDER];
    var routes := ParseBody(body);
    if routes == None {
      return None;
    }
    return Some(Expose(name, host, routes.value));
  }

  /** parseStructured's loop over the routes. */
  method ParseBody(body: seq<string>) returns (result: Option<seq<Route>>)
    ensures result == TakeBody(body)
  {
    hide TakeRoute;
    var routes := [];
    var i := 0;
    assert body[0..] == body;
    assert TakeBody(body).Some? ==> [] + TakeBody(body).value == TakeBody(body).value;
    while i < |body|
      invariant 0 <= i <= |body|
      invariant TakeBody(body) == match TakeBody(body[i..])
                                  case None => None
                                  case Some(more) => Some(routes + more)
    {
      var rt, next, ok := ParseRoute(body, i);
      if !ok {
        return None;
      }
      assert TakeBody(body[next..]).Some? ==>
        routes + ([rt] + TakeBody(body[next..]).value) == (routes + [rt]) + TakeBody(body[next..]).value;
      routes := routes + [rt];
      i := next;
    }
    assert body[i..] == [] && routes + [] == routes;
    return Some(routes);
  }
}
