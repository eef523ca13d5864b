/** The checks on names, hosts, targets and paths that come before anything is printed
    (backend/internal/devproxy/devproxy.go, backend/internal/targetguard/targetguard.go).
    The regular expressions are spelled out as predicates; which hosts the target
    allowlist admits is a parameter where it matters. */
module Validate {
  import opened Text
  import opened DevProxy
  import opened DevProxyTheorems
  import DevProxyParser
  import opened Numerals
  import opened Options

  /** ^[a-z0-9]([a-z0-9-]{0,61}[a-z0-9])?$ */
  predicate ValidName(s: string) {
    && 1 <= |s| <= 63
    && LowerAlnum(s[0]) && LowerAlnum(s[|s| - 1])
    && forall i :: 0 <= i < |s| ==> LowerAlnum(s[i]) || s[i] == '-'
  }

  /** ^(\*\.)?[a-zA-Z0-9-]+(\.[a-zA-Z0-9-]+)*$ */
  predicate ValidHost(s: string) {
    var h := TrimPrefix(s, "*.");
    && h != "" && h[0] != '.' && h[|h| - 1] != '.'
    && (forall i :: 0 <= i < |h| ==> Alnum(h[i]) || h[i] == '-' || h[i] == '.')
    && forall i :: 0 <= i < |h| - 1 ==> !(h[i] == '.' && h[i + 1] == '.')
  }

  /** ^[a-zA-Z0-9_.:\[\]-]+$ */
  predicate TargetCharset(s: string) {
    s != "" && forall i :: 0 <= i < |s| ==>
      Alnum(s[i]) || s[i] == '_' || s[i] == '.' || s[i] == ':' || s[i] == '[' || s[i] == ']' || s[i] == '-'
  }

  // ^[a-zA-Z0-9_.\-/*]*$
  predicate PathLike(s: string) {
    forall i :: 0 <= i < |s| ==>
      Alnum(s[i]) || s[i] == '_' || s[i] == '.' || s[i] == '-' || s[i] == '/' || s[i] == '*'
  }

  predicate ValidRoute(rt: Route) {
    && PathLike(rt.path) && TargetCharset(rt.target) && PathLike(rt.stripPrefix) && PathLike(rt.rewritePrefix)
    && (rt.mode == "route" || rt.mode == "handle")
  }

  /** validateExpose, but for the allowlist of target hosts. */
  predicate ValidExpose(e: Expose) {
    ValidName(e.name) && ValidHost(e.host) && forall i :: 0 <= i < |e.routes| ==> ValidRoute(e.routes[i])
  }

  lemma ValidIsPlain(e: Expose)
    requires ValidExpose(e)
    ensures PlainExpose(e) && HasModes(e)
  {
  }

  /** Every expose the API accepts, with any number of routes, comes back from its file
      exactly as it went in. */
  lemma ValidatedRoundTrip(e: Expose)
    requires ValidExpose(e)
    ensures DevProxyParser.Parse(e.name, Rendered(e)) == Some(e)
  {
    ValidIsPlain(e);
    PrintThenParse(e);
  }
}
