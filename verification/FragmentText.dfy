/** The fragments as text: every line that the printers write, spelled out in one place,
    for all exposes and apps. */
module FragmentText {
  import opened Text
  import opened ForwardAuth
  import DevProxy
  import AppRoutes

  lemma CookieText()
    ensures StripTinyauthCookies() == "header_up Cookie \"tinyauth-[^=;]*=[^;]*(; )?\" \"\""
  {
  }

  /** A line in pieces is the line. */
  lemma Glued(indent: string, a: string, b: string, c: string, line: string)
    requires a + b + c == line
    ensures indent + a + b + c == indent + line
  {
  }

  lemma Joined(a: string, b: string, c: string)
    ensures a + b + c == a + (b + c)
  {
  }

  lemma UriPieces()
    ensures "\t" + "header_up X-Forwarded-Uri " == "\theader_up X-Forwarded-Uri "
  {
  }

  lemma UriLine(indent: string)
    ensures indent + "\t" + "header_up X-Forwarded-Uri " + "{http.request.orig_uri}"
         == indent + "\theader_up X-Forwarded-Uri {http.request.orig_uri}"
  {
    var line := "\theader_up X-Forwarded-Uri {http.request.orig_uri}";
    UriPieces();
    assert "\theader_up X-Forwarded-Uri " + "{http.request.orig_uri}" == line;
    Glued(indent, "\t", "header_up X-Forwarded-Uri ", "{http.request.orig_uri}", line);
  }

  lemma HostLine(indent: string)
    ensures indent + "\t" + "header_up X-Forwarded-Host " + "{http.request.host}"
         == indent + "\theader_up X-Forwarded-Host {http.request.host}"
  {
    var line := "\theader_up X-Forwarded-Host {http.request.host}";
    assert "\t" + "header_up X-Forwarded-Host " == "\theader_up X-Forwarded-Host ";
    assert "\theader_up X-Forwarded-Host " + "{http.request.host}" == line;
    Glued(indent, "\t", "header_up X-Forwarded-Host ", "{http.request.host}", line);
  }

  lemma ProtoPieces()
    ensures "{http.request." + "header.X-Forwarded-Proto}" == "{http.request.header.X-Forwarded-Proto}"
    ensures "\t" + "header_up X-Forwarded-Proto " == "\theader_up X-Forwarded-Proto "
  {
  }

  lemma ProtoWhole()
    ensures "\theader_up X-Forwarded-Proto " + "{http.request.header.X-Forwarded-Proto}"
         == "\theader_up X-Forwarded-Proto {http.request.header.X-Forwarded-Proto}"
  {
  }

  lemma ProtoLine(indent: string)
    ensures indent + "\t" + "header_up X-Forwarded-Proto " + "{http.request." + "header.X-Forwarded-Proto}"
         == indent + "\theader_up X-Forwarded-Proto {http.request.header.X-Forwarded-Proto}"
  {
    var tail := "{http.request.header.X-Forwarded-Proto}";
    ProtoPieces();
    var line := "\theader_up X-Forwarded-Proto {http.request.header.X-Forwarded-Proto}";
    ProtoWhole();
    Glued(indent, "\t", "header_up X-Forwarded-Proto ", tail, line);
    Joined(indent + "\t" + "header_up X-Forwarded-Proto ", "{http.request.", "header.X-Forwarded-Proto}");
  }

  lemma LoginLines(indent: string)
    ensures indent + "\t\theader " + TinyauthLocationHeader() + " *" == indent + "\t\theader X-Tinyauth-Location *"
    ensures indent + "\t" + "handle_response @tinyauth_login {" == indent + "\thandle_response @tinyauth_login {"
  {
    assert "\t\theader " + "X-Tinyauth-Location" + " *" == "\t\theader X-Tinyauth-Location *";
    Glued(indent, "\t\theader ", "X-Tinyauth-Location", " *", "\t\theader X-Tinyauth-Location *");
    assert "\t" + "handle_response @tinyauth_login {" + "" == "\thandle_response @tinyauth_login {";
    Glued(indent, "\t", "handle_response @tinyauth_login {", "", "\thandle_response @tinyauth_login {");
  }

  lemma RedirectLine(indent: string)
    ensures indent + "\t\tredir * {rp.header." + TinyauthLocationHeader() + "}"
         == indent + "\t\tredir * {rp.header.X-Tinyauth-Location}"
  {
    assert "\t\tredir * {rp.header." + "X-Tinyauth-Location" + "}" == "\t\tredir * {rp.header.X-Tinyauth-Location}";
    Glued(indent, "\t\tredir * {rp.header.", "X-Tinyauth-Location", "}", "\t\tredir * {rp.header.X-Tinyauth-Location}");
  }

  lemma FirstLines(indent: string)
    ensures indent + "forward_auth " + TinyauthTarget() + " {" == indent + "forward_auth 127.0.0.1:3000 {"
    ensures indent + "\turi " + TinyauthVerifyUri() == indent + "\turi /api/auth/caddy"
  {
    assert "forward_auth " + "127.0.0.1:3000" + " {" == "forward_auth 127.0.0.1:3000 {";
    Glued(indent, "forward_auth ", "127.0.0.1:3000", " {", "forward_auth 127.0.0.1:3000 {");
    assert "\turi " + "/api/auth/caddy" + "" == "\turi /api/auth/caddy";
    Glued(indent, "\turi ", "/api/auth/caddy", "", "\turi /api/auth/caddy");
  }

  /** The block in front of a route that needs a login, and the one from before
      2026-08-27. */
  lemma BlockText(indent: string)
    ensures Block(indent) ==
      [indent + "forward_auth 127.0.0.1:3000 {",
       indent + "\turi /api/auth/caddy",
       indent + "\theader_up X-Forwarded-Uri {http.request.orig_uri}",
       indent + "\theader_up X-Forwarded-Host {http.request.host}",
       indent + "\theader_up X-Forwarded-Proto {http.request.header.X-Forwarded-Proto}",
       indent + "\t@tinyauth_login {",
       indent + "\t\tstatus 4xx",
       indent + "\t\theader X-Tinyauth-Location *",
       indent + "\t}",
       indent + "\thandle_response @tinyauth_login {",
       indent + "\t\tredir * {rp.header.X-Tinyauth-Location}",
       indent + "\t}",
       indent + "}"]
    ensures LegacyBlock(indent) ==
      [indent + "forward_auth 127.0.0.1:3000 {",
       indent + "\turi /api/auth/caddy",
       indent + "}"]
  {
    FirstLines(indent);
    UriLine(indent);
    HostLine(indent);
    ProtoLine(indent);
    LoginLines(indent);
    RedirectLine(indent);
    hide TinyauthTarget, TinyauthVerifyUri, TinyauthLocationHeader;
  }

  /** One line if there is something to say. */
  function Optional(given: string, line: string): seq<string> {
    if given == "" then [] else [line]
  }

  lemma SpelledText(rt: DevProxy.Route)
    ensures DevProxy.RouteLines(rt, DevProxy.CURRENT) ==
      ["\t" + rt.mode + (if rt.path == "" then "" else " " + rt.path) + " {"]
      + (if rt.requireAuth then Block("\t\t") else [])
      + Optional(rt.stripPrefix, "\t\turi strip_prefix " + rt.stripPrefix)
      + Optional(rt.rewritePrefix, "\t\trewrite * " + rt.rewritePrefix + "{uri}")
      + ["\t\treverse_proxy " + rt.target + " {",
         "\t\t\t" + "header_up Cookie \"tinyauth-[^=;]*=[^;]*(; )?\" \"\"",
         "\t\t}",
         "\t}"]
  {
    CookieText();
    hide Block, LegacyBlock, StripTinyauthCookies;
    Flat([DevProxy.HeaderLine(rt.mode, rt.path)], DevProxy.AuthLines(rt.requireAuth, DevProxy.CURRENT),
         DevProxy.StripLines(rt.stripPrefix, DevProxy.CURRENT), DevProxy.RewriteLines(rt.rewritePrefix, DevProxy.CURRENT),
         DevProxy.ProxyLines(rt.target, DevProxy.CURRENT), ["\t}"]);
    assert DevProxy.ProxyLines(rt.target, DevProxy.CURRENT) + ["\t}"]
        == ["\t\treverse_proxy " + rt.target + " {", DevProxy.CookieLine(), "\t\t}", "\t}"];
  }

  /** Every route as Dev Proxy writes it: login first, then prefix, rewrite and proxy, with
      the login's cookies taken off. */
  lemma RouteText(rt: DevProxy.Route)
    ensures DevProxy.RouteLines(DevProxy.Normalized(rt), DevProxy.CURRENT) ==
      ["\t" + (if rt.mode == "route" then "route" else "handle") + (if rt.path == "" then "" else " " + rt.path) + " {"]
      + (if rt.requireAuth then Block("\t\t") else [])
      + Optional(rt.stripPrefix, "\t\turi strip_prefix " + rt.stripPrefix)
      + Optional(rt.rewritePrefix, "\t\trewrite * " + rt.rewritePrefix + "{uri}")
      + ["\t\treverse_proxy " + rt.target + " {",
         "\t\t\t" + "header_up Cookie \"tinyauth-[^=;]*=[^;]*(; )?\" \"\"",
         "\t\t}",
         "\t}"]
  {
    hide Block, DevProxy.RouteLines;
    SpelledText(DevProxy.Normalized(rt));
  }

  lemma Flat(h: seq<string>, a: seq<string>, s: seq<string>, r: seq<string>, p: seq<string>, e: seq<string>)
    ensures h + (a + (s + (r + (p + e)))) == h + a + s + r + (p + e)
  {
  }

  /** A whole fragment: the matcher, the handler and the routes in their order, or a
      placeholder where there are none. */
  lemma ExposeText(e: DevProxy.Expose)
    ensures DevProxy.Rendered(e) == Unlines(
      ["@" + e.name + " host " + e.host,
       "handle @" + e.name + " {"]
      + (if e.routes == [] then ["\trespond 404"] else RoutesLines(e.routes))
      + ["}"])
  {
    DevProxy.RenderedParts(e);
    RoutesInOrder(e.routes);
    hide DevProxy.Rendered, DevProxy.RouteLines, DevProxy.BodyLines, Unlines;
    assert "@" + e.name + " host " + e.host == DevProxy.HostLine(e.name, e.host);
    assert "handle @" + e.name + " {" == DevProxy.HandleLine(e.name);
    var two, routes := [DevProxy.HostLine(e.name, e.host), DevProxy.HandleLine(e.name)], RoutesLines(e.routes);
    if e.routes == [] {
      assert two + [DevProxy.PLACEHOLDER] + routes + ["}"] == two + ["\trespond 404"] + ["}"];
    } else {
      assert two + [] + routes + ["}"] == two + routes + ["}"];
    }
  }

  /** The lines of all routes, one route after another. */
  function RoutesLines(routes: seq<DevProxy.Route>): seq<string> {
    if routes == [] then []
    else RoutesLines(routes[..|routes| - 1])
         + DevProxy.RouteLines(DevProxy.Normalized(routes[|routes| - 1]), DevProxy.CURRENT)
  }

  lemma {:induction false} RoutesInOrder(routes: seq<DevProxy.Route>)
    ensures DevProxy.BodyLines(DevProxy.NormalizedRoutes(routes), DevProxy.Current(|routes|)) == RoutesLines(routes)
  {
    hide DevProxy.RouteLines;
    if routes != [] {
      var n := |routes| - 1;
      var all := DevProxy.NormalizedRoutes(routes);
      RoutesInOrder(routes[..n]);
      assert all[..n] == DevProxy.NormalizedRoutes(routes[..n]);
      assert all[..n + 1] == all;
      DevProxy.BodyLinesSnoc(all, n);
    }
  }

  // -------------------------------------------------------------------- App Routes

  /** Text that strconv.Quote only puts between quotes. */
  predicate Plain(s: string) {
    forall i :: 0 <= i < |s| ==> ' ' <= s[i] && s[i] != '"' && s[i] != '\\' && s[i] != '\U{7F}'
  }

  lemma {:induction false} PlainIsQuotedAsItIs(s: string)
    requires Plain(s)
    ensures AppRoutes.QuoteChars(s) == s && AppRoutes.Quote(s) == "\"" + s + "\""
  {
    if s != "" {
      PlainIsQuotedAsItIs(s[1..]);
      assert s == [s[0]] + s[1..];
    }
  }

  /** An app as App Routes writes it: login first, then the proxy with its redirects
      brought back under the app's path and the login's cookies taken off. */
  lemma AppText(a: AppRoutes.App)
    requires Plain(a.name)
    ensures AppRoutes.Rendered(a) == Unlines(
      ["handle_path /app/" + a.name + "/* {"]
      + (if a.requireAuth then Block("\t") else [])
      + ["\treverse_proxy " + a.target + " {",
         "\t\theader_down Location " + "\"^(https?://[^/]+)/\" " + ("\"${1}/app/" + a.name + "/\""),
         "\t\t" + "header_up Cookie \"tinyauth-[^=;]*=[^;]*(; )?\" \"\"",
         "\t}",
         "}"])
  {
    CookieText();
    LocationText(a.name);
    hide Block, LegacyBlock, StripTinyauthCookies, AppRoutes.HeaderDown, Unlines;
    var auth := if a.requireAuth then Block("\t") else [];
    Ordered(AppRoutes.HeaderLine(a.name), auth, AppRoutes.ProxyLine(a.target, AppRoutes.CURRENT),
            AppRoutes.HeaderDown(a.name), AppRoutes.CookieLine(), "\t}", "}");
  }

  lemma Ordered(h: string, u: seq<string>, p: string, d: string, c: string, x: string, y: string)
    ensures [h] + (u + ([p, d] + [c] + [x])) + [y] == [h] + u + [p, d, c, x, y]
  {
  }

  lemma LocationText(name: string)
    requires Plain(name)
    ensures AppRoutes.HeaderDown(name) ==
      "\t\theader_down Location " + "\"^(https?://[^/]+)/\" " + ("\"${1}/app/" + name + "/\"")
  {
    var replace := "${1}/app/" + name + "/";
    PlainIsQuotedAsItIs(replace);
    assert "\"" + replace + "\"" == "\"${1}/app/" + name + "/\"";
    assert "\"^(https?://[^/]+)/\"" + " " == "\"^(https?://[^/]+)/\" ";
    Joined("\t\theader_down Location ", "\"^(https?://[^/]+)/\"", " ");
  }
}
