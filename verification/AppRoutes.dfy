/** App Route fragments (backend/internal/approutes/approutes.go): printer and parser. */
module AppRoutes {
  import opened Options
  import opened Text
  import opened ForwardAuth

  datatype App = App(name: string, target: string, requireAuth: bool)

  const FORWARD_AUTH := "\tforward_auth "
  const REVERSE_PROXY := "\treverse_proxy "
  const OPEN := " {"

  /** strconv.Quote of one character, for text whose characters all print. */
  function QuoteChar(c: char): string {
    if c == '"' then "\\\""
    else if c == '\\' then "\\\\"
    else if c == '\n' then "\\n"
    else if c == '\t' then "\\t"
    else if c == '\r' then "\\r"
    else if c == '\U{07}' then "\\a"
    else if c == '\U{08}' then "\\b"
    else if c == '\U{0B}' then "\\v"
    else if c == '\U{0C}' then "\\f"
    else if c < ' ' || c == '\U{7F}' then "\\x" + [Hex(c as int / 16), Hex(c as int % 16)]
    else [c]
  }

  function Hex(n: int): (c: char)
    requires 0 <= n < 16
    ensures c != '\n'
  {
    if n < 10 then ('0' as int + n) as char else ('a' as int + n - 10) as char
  }

  function QuoteChars(s: string): (r: string)
    ensures NoNewline(r)
  {
    if s == "" then "" else QuoteChar(s[0]) + QuoteChars(s[1..])
  }

  function Quote(s: string): (r: string)
    ensures NoNewline(r)
  {
    "\"" + QuoteChars(s) + "\""
  }

  function HeaderLine(name: string): string {
    "handle_path /app/" + name + "/* {"
  }

  function LocationRewriteReplace(name: string): string {
    "${1}/app/" + name + "/"
  }

  /** locationRewriteSearch as Quote writes it; nothing in it needs escaping. */
  const QUOTED_LOCATION_SEARCH := "\"^(https?://[^/]+)/\""

  function HeaderDown(name: string): string {
    "\t\theader_down Location " + QUOTED_LOCATION_SEARCH + " " + Quote(LocationRewriteReplace(name))
  }

  function CookieLine(): string {
    "\t\t" + StripTinyauthCookies()
  }

  // ---------------------------------------------------------------- spellings

  /** How an app can be written: the old forward_auth block, no cookie strip, and, for
      the target "{" alone, a proxy line in which the space belongs to both the
      directive and the open brace. */
  datatype Spelling = Spelling(legacyAuth: bool, noStrip: bool, sharedSpace: bool)

  const CURRENT := Spelling(false, false, false)

  predicate Spellable(a: App, sp: Spelling) {
    sp.sharedSpace ==> a.target == "{"
  }

  function AuthLines(requireAuth: bool, sp: Spelling): seq<string> {
    if !requireAuth then [] else if sp.legacyAuth then LegacyBlock("\t") else Block("\t")
  }

  function ProxyLine(target: string, sp: Spelling): string {
    if sp.sharedSpace then REVERSE_PROXY + "{" else REVERSE_PROXY + target + OPEN
  }

  function StripLines(sp: Spelling): seq<string> {
    if sp.noStrip then [] else [CookieLine()]
  }

  /** From the proxy line to its closing brace. */
  function ProxyLines(a: App, sp: Spelling): seq<string> {
    [ProxyLine(a.target, sp), HeaderDown(a.name)] + StripLines(sp) + ["\t}"]
  }

  function AppLines(a: App, sp: Spelling): seq<string> {
    [HeaderLine(a.name)] + (AuthLines(a.requireAuth, sp) + ProxyLines(a, sp)) + ["}"]
  }

  /** The fragment Render writes for a. */
  function Rendered(a: App): string {
    Unlines(AppLines(a, CURRENT))
  }

  // ------------------------------------------------------------------ printer

  lemma CurrentLines(a: App)
    ensures [HeaderLine(a.name)] + AuthLines(a.requireAuth, CURRENT) + [REVERSE_PROXY + a.target + OPEN]
            + [HeaderDown(a.name)] + [CookieLine()] + ["\t}"] + ["}"] == AppLines(a, CURRENT)
  {
  }

  lemma Regrouped(h: string, u: seq<string>, p: string, d: string, c: string, x: string, y: string)
    ensures [h] + u + [p] + [d] + [c] + [x] + [y] == [h] + (u + [p, d, c, x]) + [y]
  {
  }

  method Render(a: App) returns (text: string)
    ensures text == Rendered(a)
  {
    assert Unlines([]) == "";
    hide HeaderLine, HeaderDown, CookieLine, Block, LegacyBlock, Unlines;
    text := AppendLine("", [], HeaderLine(a.name));
    ghost var done := [HeaderLine(a.name)];
    if a.requireAuth {
      var auth := RenderForwardAuth("\t");
      UnlinesAppend(done, Block("\t"));
      text := text + auth;
    }
    assert done + [] == done;
    done := done + AuthLines(a.requireAuth, CURRENT);
    text := AppendLine(text, done, REVERSE_PROXY + a.target + OPEN);
    done := done + [REVERSE_PROXY + a.target + OPEN];
    text := AppendLine(text, done, HeaderDown(a.name));
    text := AppendLine(text, done + [HeaderDown(a.name)], CookieLine());
    text := AppendLine(text, done + [HeaderDown(a.name)] + [CookieLine()], "\t}");
    text := AppendLine(text, done + [HeaderDown(a.name)] + [CookieLine()] + ["\t}"], "}");
    CurrentLines(a);
  }

  // ------------------------------------------------------------------- parser

  /** The target of a proxy line: prefix trimmed, then suffix. */
  function TargetOf(line: string): Option<string> {
    if REVERSE_PROXY <= line && HasSuffix(line, OPEN)
    then Some(TrimSuffix(TrimPrefix(line, REVERSE_PROXY), OPEN))
    else None
  }

  /** The body after the forward_auth block. */
  function ProxyTarget(name: string, lines: seq<string>): Option<string> {
    if |lines| < 2 || lines[1] != HeaderDown(name) then None
    else
      var rest := if |lines| > 2 && lines[2] == CookieLine() then lines[3..] else lines[2..];
      if rest == ["\t}"] then TargetOf(lines[0]) else None
  }

  function ParseBody(name: string, body: seq<string>): Option<App> {
    var n := MatchedLength(body, "\t");
    if n == 0 && body != [] && FORWARD_AUTH <= body[0] then None
    else
      match ProxyTarget(name, body[n..])
      case None => None
      case Some(target) => Some(App(name, target, n > 0))
  }

  function ParseLines(name: string, lines: seq<string>): Option<App> {
    if |lines| < 3 || lines[0] != HeaderLine(name) || lines[|lines| - 1] != "}" then None
    else ParseBody(name, lines[1..|lines| - 1])
  }

  function Parse(name: string, content: string): Option<App> {
    ParseLines(name, DropBlankTail(Split(content)))
  }

  method ParseStructured(name: string, content: string) returns (a: Option<App>)
    ensures a == Parse(name, content)
  {
    hide HeaderLine, ParseBody;
    var lines := Split(content);
    while |lines| > 0 && Blank(lines[|lines| - 1])
      invariant DropBlankTail(lines) == DropBlankTail(Split(content))
    {
      lines := lines[..|lines| - 1];
    }
    if |lines| < 3 || lines[0] != HeaderLine(name) || lines[|lines| - 1] != "}" {
      return None;
    }
    a := ParseApp(name, lines[1..|lines| - 1]);
  }

  /** parseStructured from the body on, with its line index. */
  method ParseApp(name: string, body: seq<string>) returns (a: Option<App>)
    ensures a == ParseBody(name, body)
  {
    hide HeaderDown, CookieLine, TargetOf, HasSuffix, TrimSuffix, TrimPrefix, MatchedLength;
    var i := 0;
    assert body[0..] == body;
    var next, ok := MatchForwardAuth(body, i, "\t");
    if ok {
      i := next;
    } else if i < |body| && FORWARD_AUTH <= body[i] {
      return None;
    }
    ghost var lines := body[i..];
    assert ParseBody(name, body) == match ProxyTarget(name, lines)
                                    case None => None
                                    case Some(target) => Some(App(name, target, ok));
    assert forall k :: 0 <= k < |lines| ==> lines[k] == body[i + k];
    ghost var start := i;
    if i >= |body| {
      return None;
    }
    var target := TargetOf(body[i]);
    if target == None {
      return None;
    }
    i := i + 1;
    if i >= |body| || body[i] != HeaderDown(name) {
      return None;
    }
    i := i + 1;
    if i < |body| && body[i] == CookieLine() {
      i := i + 1;
    }
    assert body[i..] == lines[i - start..];
    if i >= |body| || body[i] != "\t}" {
      return None;
    }
    i := i + 1;
    if i != |body| {
      return None;
    }
    assert lines[i - 1 - start..] == ["\t}"];
    return Some(App(name, target.value, ok));
  }
}
