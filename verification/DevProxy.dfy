/** Dev Proxy fragments (backend/internal/devproxy/devproxy.go): the printer, the
    line-by-line parser, and the spellings of a route that the parser accepts. */
module DevProxy {
  import opened Text
  import opened ForwardAuth
  import opened Options

  datatype Route = Route(path: string, target: string, stripPrefix: string, rewritePrefix: string,
                         mode: string, requireAuth: bool)

  datatype Expose = Expose(name: string, host: string, routes: seq<Route>)

  const FORWARD_AUTH := "\t\tforward_auth "
  const STRIP_PREFIX := "\t\turi strip_prefix "
  const REWRITE := "\t\trewrite * "
  const REVERSE_PROXY := "\t\treverse_proxy "
  function CookieLine(): string { "\t\t\t" + StripTinyauthCookies() }
  const PLACEHOLDER := "\trespond 404"
  const OPEN := " {"
  const URI := "{uri}"

  // ---------------------------------------------------------------- spellings

  /** How one route can be written: with the block from before 2026-08-27, with an
      empty strip_prefix or rewrite line, with the one-line reverse_proxy. */
  datatype Spelling = Spelling(legacyAuth: bool, emptyStrip: bool, emptyRewrite: bool, bareProxy: bool)

  /** What Render writes. */
  const CURRENT := Spelling(false, false, false, false)

  function HeaderLine(mode: string, path: string): string {
    "\t" + mode + (if path == "" then "" else " " + path) + OPEN
  }

  function AuthLines(requireAuth: bool, sp: Spelling): seq<string> {
    if !requireAuth then [] else if sp.legacyAuth then LegacyBlock("\t\t") else Block("\t\t")
  }

  function StripLines(prefix: string, sp: Spelling): seq<string> {
    if prefix == "" && !sp.emptyStrip then [] else [STRIP_PREFIX + prefix]
  }

  function RewriteLines(prefix: string, sp: Spelling): seq<string> {
    if prefix == "" && !sp.emptyRewrite then [] else [REWRITE + prefix + URI]
  }

  function ProxyLines(target: string, sp: Spelling): seq<string> {
    if sp.bareProxy then [REVERSE_PROXY + target]
    else [REVERSE_PROXY + target + OPEN, CookieLine(), "\t\t}"]
  }

  lemma Regroup(a: seq<string>, b: seq<string>, c: seq<string>)
    ensures a + (b + c) == a + b + c
  {
  }

  /** The lines of a route after its forward_auth block. */
  function RestLines(rt: Route, sp: Spelling): seq<string> {
    StripLines(rt.stripPrefix, sp) + (RewriteLines(rt.rewritePrefix, sp) + (ProxyLines(rt.target, sp) + ["\t}"]))
  }

  function RouteLines(rt: Route, sp: Spelling): seq<string> {
    [HeaderLine(rt.mode, rt.path)] + (AuthLines(rt.requireAuth, sp) + RestLines(rt, sp))
  }

  /** A route that has spelling sp: the one-line form cannot end in an open brace. */
  predicate Spellable(rt: Route, sp: Spelling) {
    && (rt.mode == "route" || rt.mode == "handle")
    && NoNewline(rt.path)
    && (sp.bareProxy ==> !HasSuffix(rt.target, OPEN))
  }

  predicate AllSpellable(routes: seq<Route>, sps: seq<Spelling>) {
    |routes| == |sps| && forall i :: 0 <= i < |routes| ==> Spellable(routes[i], sps[i])
  }

  function BodyLines(routes: seq<Route>, sps: seq<Spelling>): seq<string>
    requires |routes| == |sps|
  {
    if routes == [] then [] else RouteLines(routes[0], sps[0]) + BodyLines(routes[1..], sps[1..])
  }

  function HostLine(name: string, host: string): string {
    "@" + name + " host " + host
  }

  function HandleLine(name: string): string {
    "handle @" + name + OPEN
  }

  /** A whole fragment; only one without routes can hold the placeholder. */
  function ExposeLines(e: Expose, sps: seq<Spelling>, placeholder: bool): seq<string>
    requires |e.routes| == |sps|
  {
    [HostLine(e.name, e.host), HandleLine(e.name)]
    + (if placeholder && e.routes == [] then [PLACEHOLDER] else BodyLines(e.routes, sps)) + ["}"]
  }

  function Current(n: nat): (sps: seq<Spelling>)
    ensures |sps| == n && forall i :: 0 <= i < n ==> sps[i] == CURRENT
  {
    if n == 0 then [] else Current(n - 1) + [CURRENT]
  }

  function Normalized(rt: Route): Route {
    rt.(mode := if rt.mode == "route" then "route" else "handle")
  }

  function NormalizedRoutes(routes: seq<Route>): (r: seq<Route>)
    ensures |r| == |routes| && forall i :: 0 <= i < |routes| ==> r[i] == Normalized(routes[i])
  {
    if routes == [] then [] else [Normalized(routes[0])] + NormalizedRoutes(routes[1..])
  }

  /** The fragment Render writes for e. */
  function Rendered(e: Expose): string {
    var e' := e.(routes := NormalizedRoutes(e.routes));
    Unlines(ExposeLines(e', Current(|e'.routes|), true))
  }

  // ------------------------------------------------------------------ printer

  method RenderRoute(rt: Route) returns (text: string)
    ensures text == Unlines(RouteLines(Normalized(rt), CURRENT))
  {
    assert Unlines([]) == "";
    hide Block, LegacyBlock, RestLines, Unlines;
    var directive := if rt.mode == "route" then "route" else "handle";
    var header := if rt.path != "" then "\t" + directive + " " + rt.path + OPEN else "\t" + directive + OPEN;
    assert header == HeaderLine(directive, rt.path);
    text := AppendLine("", [], header);
    ghost var done := [header];
    if rt.requireAuth {
      var auth := RenderForwardAuth("\t\t");
      UnlinesAppend(done, Block("\t\t"));
      text := text + auth;
    }
    assert done + [] == done;
    done := done + AuthLines(rt.requireAuth, CURRENT);
    text := RenderRest(text, done, Normalized(rt));
    Regroup([header], AuthLines(rt.requireAuth, CURRENT), RestLines(Normalized(rt), CURRENT));
  }

  method RenderRest(before: string, ghost done: seq<string>, rt: Route) returns (text: string)
    requires before == Unlines(done)
    ensures text == Unlines(done + RestLines(rt, CURRENT))
  {
    hide StripTinyauthCookies, Unlines;
    text := before;
    ghost var d := done;
    if rt.stripPrefix != "" {
      text := AppendLine(text, d, STRIP_PREFIX + rt.stripPrefix);
      d := d + [STRIP_PREFIX + rt.stripPrefix];
    }
    if rt.rewritePrefix != "" {
      text := AppendLine(text, d, REWRITE + rt.rewritePrefix + URI);
      d := d + [REWRITE + rt.rewritePrefix + URI];
    }
    text := AppendLine(text, d, REVERSE_PROXY + rt.target + OPEN);
    text := AppendLine(text, d + [REVERSE_PROXY + rt.target + OPEN], CookieLine());
    text := AppendLine(text, d + [REVERSE_PROXY + rt.target + OPEN] + [CookieLine()], "\t\t}");
    text := AppendLine(text, d + [REVERSE_PROXY + rt.target + OPEN] + [CookieLine()] + ["\t\t}"], "\t}");
    assert d + [REVERSE_PROXY + rt.target + OPEN] + [CookieLine()] + ["\t\t}"] + ["\t}"]
        == done + RestLines(rt, CURRENT);
  }

  lemma {:induction false} BodyLinesAppend(routes: seq<Route>, rt: Route, sps: seq<Spelling>, sp: Spelling)
    requires |routes| == |sps|
    ensures BodyLines(routes + [rt], sps + [sp]) == BodyLines(routes, sps) + RouteLines(rt, sp)
  {
    hide RouteLines;
    if routes == [] {
      assert (routes + [rt])[1..] == [] && (sps + [sp])[1..] == [];
    } else {
      assert (routes + [rt])[1..] == routes[1..] + [rt] && (sps + [sp])[1..] == sps[1..] + [sp];
      BodyLinesAppend(routes[1..], rt, sps[1..], sp);
    }
  }

  lemma BodyLinesSnoc(routes: seq<Route>, i: nat)
    requires i < |routes|
    ensures BodyLines(routes[..i + 1], Current(i + 1)) == BodyLines(routes[..i], Current(i)) + RouteLines(routes[i], CURRENT)
  {
    hide RouteLines, BodyLines;
    BodyLinesAppend(routes[..i], routes[i], Current(i), CURRENT);
    assert routes[..i + 1] == routes[..i] + [routes[i]];
  }

  method Render(e: Expose) returns (text: string)
    ensures text == Rendered(e)
  {
    assert BodyLines([], []) == [] && Current(0) == [];
    hide *;
    ghost var routes := NormalizedRoutes(e.routes);
    text := RenderHead(e);
    ghost var head := HeadLines(e);
    ghost var done: seq<string> := [];
    assert routes[..0] == [] && head + done == head;
    var i := 0;
    while i < |e.routes|
      invariant 0 <= i <= |e.routes|
      invariant done == BodyLines(routes[..i], Current(i))
      invariant text == Unlines(head + done)
    {
      var route := RenderRoute(e.routes[i]);
      ghost var lines := RouteLines(routes[i], CURRENT);
      UnlinesAppend(head + done, lines);
      BodyLinesSnoc(routes, i);
      Regroup(head, done, lines);
      text := text + route;
      done := done + lines;
      i := i + 1;
    }
    assert routes[..i] == routes;
    text := AppendLine(text, head + done, "}");
    RenderedParts(e);
  }

  function HeadLines(e: Expose): seq<string> {
    [HostLine(e.name, e.host), HandleLine(e.name)] + if |e.routes| == 0 then [PLACEHOLDER] else []
  }

  /** Everything before the first route. */
  method RenderHead(e: Expose) returns (text: string)
    ensures text == Unlines(HeadLines(e))
  {
    assert Unlines([]) == "";
    hide Unlines;
    text := AppendLine("", [], HostLine(e.name, e.host));
    text := AppendLine(text, [] + [HostLine(e.name, e.host)], HandleLine(e.name));
    ghost var done := [] + [HostLine(e.name, e.host)] + [HandleLine(e.name)];
    if |e.routes| == 0 {
      text := AppendLine(text, done, PLACEHOLDER);
      done := done + [PLACEHOLDER];
    }
    assert done == HeadLines(e);
  }

  lemma RenderedParts(e: Expose)
    ensures Rendered(e) == Unlines(HeadLines(e) + BodyLines(NormalizedRoutes(e.routes), Current(|e.routes|)) + ["}"])
  {
    var e' := e.(routes := NormalizedRoutes(e.routes));
    hide HostLine, HandleLine, RouteLines;
    assert ExposeLines(e', Current(|e'.routes|), true)
        == HeadLines(e) + BodyLines(e'.routes, Current(|e.routes|)) + ["}"];
  }
}
