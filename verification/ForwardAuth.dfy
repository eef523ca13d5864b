/** The tinyauth forward_auth block that Dev Proxy and App Routes share
    (backend/internal/devproxy/forwardauth.go). */
module ForwardAuth {
  import opened Text

  function TinyauthTarget(): string { "127.0.0.1:3000" }
  function TinyauthVerifyUri(): string { "/api/auth/caddy" }
  function TinyauthLocationHeader(): string { "X-Tinyauth-Location" }
  function StripTinyauthCookies(): string {
    "header_up Cookie " + "\"tinyauth-[^=;]*=[^;]*(; )?\"" + " \"\""
  }

  function LegacyBlock(indent: string): seq<string> {
    [indent + "forward_auth " + TinyauthTarget() + " {",
     indent + "\turi " + TinyauthVerifyUri(),
     indent + "}"]
  }

  function Block(indent: string): seq<string> {
    [indent + "forward_auth " + TinyauthTarget() + " {",
     indent + "\turi " + TinyauthVerifyUri(),
     indent + "\t" + "header_up X-Forwarded-Uri " + "{http.request.orig_uri}",
     indent + "\t" + "header_up X-Forwarded-Host " + "{http.request.host}",
     indent + "\t" + "header_up X-Forwarded-Proto " + "{http.request." + "header.X-Forwarded-Proto}",
     indent + "\t@tinyauth_login {",
     indent + "\t\tstatus 4xx",
     indent + "\t\theader " + TinyauthLocationHeader() + " *",
     indent + "\t}",
     indent + "\t" + "handle_response @tinyauth_login {",
     indent + "\t\tredir * {rp.header." + TinyauthLocationHeader() + "}",
     indent + "\t}",
     indent + "}"]
  }

  /** A block of either spelling at the head of lines, as how many lines it takes. */
  function MatchedLength(lines: seq<string>, indent: string): (n: nat)
    ensures n <= |lines|
  {
    if Block(indent) <= lines then |Block(indent)|
    else if LegacyBlock(indent) <= lines then |LegacyBlock(indent)|
    else 0
  }

  /** matchLines. */
  method MatchLines(body: seq<string>, i: nat, want: seq<string>) returns (ok: bool)
    requires i <= |body|
    ensures ok <==> want <= body[i..]
  {
    if i + |want| > |body| {
      return false;
    }
    var j := 0;
    while j < |want|
      invariant 0 <= j <= |want|
      invariant body[i..i + j] == want[..j]
    {
      if body[i + j] != want[j] {
        assert body[i..][j] != want[j];
        return false;
      }
      assert body[i..i + j + 1] == body[i..i + j] + [body[i + j]];
      assert want[..j + 1] == want[..j] + [want[j]];
      j := j + 1;
    }
    assert body[i..][..|want|] == body[i..i + |want|];
    return true;
  }

  method MatchForwardAuth(body: seq<string>, i: nat, indent: string) returns (next: nat, ok: bool)
    requires i <= |body|
    ensures ok <==> MatchedLength(body[i..], indent) > 0
    ensures next == i + MatchedLength(body[i..], indent) <= |body|
  {
    ok := MatchLines(body, i, Block(indent));
    if ok {
      return i + |Block(indent)|, true;
    }
    ok := MatchLines(body, i, LegacyBlock(indent));
    if ok {
      return i + |LegacyBlock(indent)|, true;
    }
    return i, false;
  }

  /** RenderForwardAuth: the lines joined by newlines, and one more. */
  method RenderForwardAuth(indent: string) returns (text: string)
    ensures text == Unlines(Block(indent))
  {
    var lines := Block(indent);
    text := lines[0];
    var i := 1;
    while i < |lines|
      invariant 1 <= i <= |lines|
      invariant text + "\n" == Unlines(lines[..i])
    {
      UnlinesAppend(lines[..i], [lines[i]]);
      assert lines[..i + 1] == lines[..i] + [lines[i]];
      assert Unlines([lines[i]]) == lines[i] + "\n";
      assert text + "\n" + lines[i] + "\n" == text + "\n" + (lines[i] + "\n");
      text := text + "\n" + lines[i];
      i := i + 1;
    }
    assert lines[..i] == lines;
    text := text + "\n";
  }

  lemma BlocksDiffer(indent: string)
    ensures |Block(indent)| == 13 && |LegacyBlock(indent)| == 3
    ensures Block(indent)[0] == LegacyBlock(indent)[0] && indent + "forward_auth " <= Block(indent)[0]
    ensures Block(indent)[2] != LegacyBlock(indent)[2]
  {
  }

  lemma MatchedExactly(lines: seq<string>, indent: string)
    ensures MatchedLength(lines, indent) == 13 <==> Block(indent) <= lines
    ensures MatchedLength(lines, indent) == 3 <==> LegacyBlock(indent) <= lines
    ensures MatchedLength(lines, indent) in {0, 3, 13}
  {
    BlocksDiffer(indent);
    hide Block, LegacyBlock;
    assert Block(indent) <= lines ==> lines[2] == Block(indent)[2];
    assert LegacyBlock(indent) <= lines ==> lines[2] == LegacyBlock(indent)[2];
  }

  lemma BlockStart(indent: string)
    requires NoNewline(indent)
    ensures AllNoNewline(LegacyBlock(indent)) && NoNewline(StripTinyauthCookies())
  {
  }

  lemma BlockMiddle(indent: string)
    requires NoNewline(indent)
    ensures |Block(indent)| == 13 && forall i :: 2 <= i < 5 ==> NoNewline(Block(indent)[i])
  {
    HeaderLines(indent);
    hide NoNewline;
  }

  lemma HeaderLines(indent: string)
    requires NoNewline(indent)
    ensures NoNewline(indent + "\t" + "header_up X-Forwarded-Uri " + "{http.request.orig_uri}")
    ensures NoNewline(indent + "\t" + "header_up X-Forwarded-Host " + "{http.request.host}")
    ensures NoNewline(indent + "\t" + "header_up X-Forwarded-Proto " + "{http.request." + "header.X-Forwarded-Proto}")
  {
  }

  lemma BlockEnd(indent: string)
    requires NoNewline(indent)
    ensures |Block(indent)| == 13 && forall i :: 5 <= i < 13 ==> NoNewline(Block(indent)[i])
  {
  }

  lemma BlockHasNoNewline(indent: string)
    requires NoNewline(indent)
    ensures AllNoNewline(Block(indent)) && AllNoNewline(LegacyBlock(indent)) && NoNewline(StripTinyauthCookies())
  {
    assert Block(indent)[0] == LegacyBlock(indent)[0] && Block(indent)[1] == LegacyBlock(indent)[1];
    hide Block, LegacyBlock, StripTinyauthCookies, NoNewline;
    BlockStart(indent);
    BlockMiddle(indent);
    BlockEnd(indent);
  }

  // ---------------------------------------------------- counting the blocks

  function TrimTabs(line: string): string {
    if line != "" && line[0] == '\t' then TrimTabs(line[1..]) else line
  }

  /** A line that opens a forward_auth directive, at whatever depth. */
  predicate OpensForwardAuth(line: string) {
    "forward_auth " <= TrimTabs(line)
  }

  function CountForwardAuth(lines: seq<string>): nat {
    if lines == [] then 0 else (if OpensForwardAuth(lines[0]) then 1 else 0) + CountForwardAuth(lines[1..])
  }

  lemma {:induction false} CountAppend(a: seq<string>, b: seq<string>)
    ensures CountForwardAuth(a + b) == CountForwardAuth(a) + CountForwardAuth(b)
  {
    if a == [] {
      assert a + b == b;
    } else {
      assert (a + b)[1..] == a[1..] + b;
      CountAppend(a[1..], b);
    }
  }

  /** After k tabs comes a character that decides. */
  lemma {:induction false} AfterTabs(line: string, k: nat)
    requires k < |line| && (forall i :: 0 <= i < k ==> line[i] == '\t') && line[k] != '\t'
    ensures TrimTabs(line) == line[k..]
    ensures line[k] != 'f' ==> !OpensForwardAuth(line)
    decreases k
  {
    if k > 0 {
      assert line[1..][k - 1] == line[k] && forall i :: 0 <= i < k - 1 ==> line[1..][i] == line[i + 1];
      AfterTabs(line[1..], k - 1);
      assert line[1..][k - 1..] == line[k..];
    }
  }

  lemma {:induction false} NoneOpens(lines: seq<string>)
    requires forall i :: 0 <= i < |lines| ==> !OpensForwardAuth(lines[i])
    ensures CountForwardAuth(lines) == 0
  {
    if lines != [] {
      assert forall i :: 0 <= i < |lines| - 1 ==> lines[1..][i] == lines[i + 1];
      NoneOpens(lines[1..]);
    }
  }

  lemma {:induction false} BlankOpensNothing(line: string)
    requires Blank(line)
    ensures !OpensForwardAuth(line)
  {
    if line != "" && line[0] == '\t' {
      assert forall i :: 0 <= i < |line| - 1 ==> line[1..][i] == line[i + 1];
      BlankOpensNothing(line[1..]);
    } else if line != "" {
      AfterTabs(line, 0);
      assert IsSpace(line[0]);
    }
  }

  predicate Tabs(s: string) {
    forall i :: 0 <= i < |s| ==> s[i] == '\t'
  }

  lemma OneBlockOpensOnce(indent: string)
    requires Tabs(indent)
    ensures CountForwardAuth(Block(indent)) == 1 && CountForwardAuth(LegacyBlock(indent)) == 1
  {
    var n := |indent|;
    var b, l := Block(indent), LegacyBlock(indent);
    assert l[0] == b[0] == indent + "forward_auth " + TinyauthTarget() + " {";
    assert b[0] == indent + ("forward_auth " + TinyauthTarget() + " {");
    AfterTabs(b[0], n);
    assert b[0][n..] == "forward_auth " + TinyauthTarget() + " {";
    AfterTabs(l[1], n + 1);
    AfterTabs(l[2], n);
    NoneOpens(l[1..]);
    var k := [n, n + 1, n + 1, n + 1, n + 1, n + 1, n + 2, n + 2, n + 1, n + 1, n + 2, n + 1, n];
    BlockIndents(indent);
    forall i | 1 <= i < 13 ensures !OpensForwardAuth(b[i]) {
      AfterTabs(b[i], k[i]);
    }
    NoneOpens(b[1..]);
  }

  lemma BlockIndents(indent: string)
    requires Tabs(indent)
    ensures var n, b := |indent|, Block(indent);
      var k := [n, n + 1, n + 1, n + 1, n + 1, n + 1, n + 2, n + 2, n + 1, n + 1, n + 2, n + 1, n];
      |b| == 13 && forall i :: 1 <= i < 13 ==>
        k[i] < |b[i]| && Tabs(b[i][..k[i]]) && b[i][k[i]] != '\t' && b[i][k[i]] != 'f'
  {
  }
}
