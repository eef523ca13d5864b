/** netgate's live document and the four updates of it
    (backend/internal/netgate/config.go). Loading what was saved is the identity. */
module LiveConfig {
  import opened Numerals
  import opened Options
  import opened Backstop

  datatype Forward = Forward(hostPort: int, targetHost: string, targetPort: int)

  datatype ServiceLimit = ServiceLimit(targetHost: string, limitMbps: int)

  datatype Bandwidth = Bandwidth(totalMbps: int, services: seq<ServiceLimit>)

  datatype Config = Config(outbound: seq<OutboundRule>, forwards: seq<Forward>, bandwidth: Bandwidth)

  /** What load returns while the file does not exist. */
  const EMPTY := Config([], [], Bandwidth(0, []))

  datatype Update =
    | ReplaceOutbound(rules: seq<OutboundRule>)
    | AddForward(f: Forward)
    | DeleteForward(hostPort: int)
    | SetBandwidth(bw: Bandwidth)

  datatype Error = Validation | Exists | NotFound | IoFailed

  /** Fixed for the life of the process: IPv6 syntax, and targetguard's allowlist. */
  datatype Env = Env(v6: V6Syntax, guard: (string, int) -> bool)

  // ^[a-zA-Z0-9]([a-zA-Z0-9.-]*[a-zA-Z0-9])?$
  predicate ValidHost(h: string) {
    && h != "" && Alnum(h[0]) && Alnum(h[|h| - 1])
    && forall i :: 0 <= i < |h| ==> Alnum(h[i]) || h[i] == '.' || h[i] == '-'
  }

  predicate ValidPort(p: int) {
    1 <= p <= 65535
  }

  predicate ValidForward(f: Forward, env: Env) {
    ValidPort(f.hostPort) && ValidHost(f.targetHost) && ValidPort(f.targetPort) && env.guard(f.targetHost, f.targetPort)
  }

  predicate DistinctHosts(services: seq<ServiceLimit>) {
    forall i, j :: 0 <= i < j < |services| ==> services[i].targetHost != services[j].targetHost
  }

  predicate ValidBandwidth(bw: Bandwidth) {
    && bw.totalMbps >= 0
    && (forall s :: s in bw.services ==> ValidHost(s.targetHost) && s.limitMbps >= 1)
    && DistinctHosts(bw.services)
  }

  /** What an update must pass before the lock is taken. */
  predicate Admitted(u: Update, env: Env) {
    match u
    case ReplaceOutbound(rules) => Acceptable(rules, env.v6)
    case AddForward(f) => ValidForward(f, env)
    case DeleteForward(_) => true
    case SetBandwidth(bw) => ValidBandwidth(bw)
  }

  predicate Forwards(forwards: seq<Forward>, hostPort: int) {
    exists f :: f in forwards && f.hostPort == hostPort
  }

  function Unforwarded(forwards: seq<Forward>, hostPort: int): seq<Forward> {
    if forwards == [] then []
    else if forwards[0].hostPort == hostPort then Unforwarded(forwards[1..], hostPort)
    else [forwards[0]] + Unforwarded(forwards[1..], hostPort)
  }

  /** The change made to the loaded document, or the reason there is none. */
  function Apply(c: Config, u: Update): (Config, Option<Error>) {
    match u
    case ReplaceOutbound(rules) => (c.(outbound := rules), None)
    case AddForward(f) =>
      if Forwards(c.forwards, f.hostPort) then (c, Some(Exists)) else (c.(forwards := c.forwards + [f]), None)
    case DeleteForward(p) =>
      if Forwards(c.forwards, p) then (c.(forwards := Unforwarded(c.forwards, p)), None) else (c, Some(NotFound))
    case SetBandwidth(bw) => (c.(bandwidth := bw), None)
  }

  function Loaded(doc: Option<Config>): Config {
    if doc.Some? then doc.value else EMPTY
  }

  /** One whole call on the file: the document afterwards, and the error. */
  function Perform(doc: Option<Config>, u: Update, env: Env, saveOk: bool): (Option<Config>, Option<Error>) {
    var (next, refused) := Apply(Loaded(doc), u);
    if !Admitted(u, env) then (doc, Some(Validation))
    else if refused.Some? then (doc, refused)
    else if saveOk then (Some(next), None)
    else (doc, Some(IoFailed))
  }

  // ------------------------------------------------------------- on the heap

  lemma {:induction false} UnforwardedAppend(a: seq<Forward>, f: Forward, hostPort: int)
    ensures Unforwarded(a + [f], hostPort) == Unforwarded(a, hostPort) + (if f.hostPort == hostPort then [] else [f])
  {
    if a == [] {
      assert a + [f] == [f];
    } else {
      assert (a + [f])[1..] == a[1..] + [f];
      UnforwardedAppend(a[1..], f, hostPort);
    }
  }

  /** The file, absent until the first save, and the operations on it. */
  class ConfigFile {
    var doc: Option<Config>
    const env: Env

    constructor (env: Env)
      ensures this.env == env && doc == None
    {
      doc := None;
      this.env := env;
    }

    method Load() returns (c: Config)
      ensures c == Loaded(doc)
    {
      match doc {
        case Some(d) => c := d;
        case None => c := EMPTY;
      }
    }

    method Save(c: Config, ok: bool) returns (err: Option<Error>)
      modifies this
      ensures doc == if ok then Some(c) else old(doc)
      ensures err == if ok then None else Some(IoFailed)
    {
      if ok {
        doc := Some(c);
      }
      return if ok then None else Some(IoFailed);
    }

    method DoReplaceOutbound(rules: seq<OutboundRule>, ok: bool) returns (err: Option<Error>)
      modifies this
      ensures (doc, err) == Perform(old(doc), ReplaceOutbound(rules), env, ok)
    {
      var bad := ValidateOutbound(rules, env.v6);
      if bad.Some? {
        return Some(Validation);
      }
      var cfg := Load();
      err := Save(cfg.(outbound := rules), ok);
    }

    method DoAddForward(f: Forward, ok: bool) returns (err: Option<Error>)
      modifies this
      ensures (doc, err) == Perform(old(doc), AddForward(f), env, ok)
    {
      if !ValidForward(f, env) {
        return Some(Validation);
      }
      var cfg := Load();
      for i := 0 to |cfg.forwards|
        invariant forall k :: 0 <= k < i ==> cfg.forwards[k].hostPort != f.hostPort
        invariant doc == old(doc)
      {
        if cfg.forwards[i].hostPort == f.hostPort {
          assert cfg.forwards[i] in cfg.forwards;
          return Some(Exists);
        }
      }
      err := Save(cfg.(forwards := cfg.forwards + [f]), ok);
    }

    method DoDeleteForward(hostPort: int, ok: bool) returns (err: Option<Error>)
      modifies this
      ensures (doc, err) == Perform(old(doc), DeleteForward(hostPort), env, ok)
    {
      var cfg := Load();
      var found := false;
      var kept: seq<Forward> := [];
      for i := 0 to |cfg.forwards|
        invariant found <==> Forwards(cfg.forwards[..i], hostPort)
        invariant kept == Unforwarded(cfg.forwards[..i], hostPort)
        invariant doc == old(doc)
      {
        var e := cfg.forwards[i];
        assert cfg.forwards[..i + 1] == cfg.forwards[..i] + [e];
        UnforwardedAppend(cfg.forwards[..i], e, hostPort);
        if e.hostPort == hostPort {
          found := true;
          assert e in cfg.forwards[..i + 1];
          continue;
        }
        kept := kept + [e];
      }
      assert cfg.forwards[..|cfg.forwards|] == cfg.forwards;
      if !found {
        return Some(NotFound);
      }
      err := Save(cfg.(forwards := kept), ok);
    }

    method DoSetBandwidth(bw: Bandwidth, ok: bool) returns (err: Option<Error>)
      modifies this
      ensures (doc, err) == Perform(old(doc), SetBandwidth(bw), env, ok)
    {
      if bw.totalMbps < 0 {
        return Some(Validation);
      }
      var seen: set<string> := {};
      for i := 0 to |bw.services|
        invariant seen == set k | 0 <= k < i :: bw.services[k].targetHost
        invariant forall k :: 0 <= k < i ==> ValidHost(bw.services[k].targetHost) && bw.services[k].limitMbps >= 1
        invariant forall j, k :: 0 <= j < k < i ==> bw.services[j].targetHost != bw.services[k].targetHost
        invariant doc == old(doc)
      {
        var s := bw.services[i];
        assert s in bw.services;
        if !ValidHost(s.targetHost) || s.limitMbps < 1 || s.targetHost in seen {
          return Some(Validation);
        }
        seen := seen + {s.targetHost};
      }
      var cfg := Load();
      err := Save(cfg.(bandwidth := bw), ok);
    }
  }

  // ----------------------------------------------------------------- properties

  predicate DistinctPorts(forwards: seq<Forward>) {
    forall i, j :: 0 <= i < j < |forwards| ==> forwards[i].hostPort != forwards[j].hostPort
  }

  /** A document every part of which was admitted. */
  predicate Sound(c: Config, env: Env) {
    && Acceptable(c.outbound, env.v6)
    && DistinctPorts(c.forwards) && (forall f :: f in c.forwards ==> ValidForward(f, env))
    && ValidBandwidth(c.bandwidth)
  }

  lemma {:induction false} UnforwardedMembers(forwards: seq<Forward>, p: int)
    ensures forall f :: f in Unforwarded(forwards, p) <==> f in forwards && f.hostPort != p
  {
    if forwards != [] {
      assert forwards == [forwards[0]] + forwards[1..];
      UnforwardedMembers(forwards[1..], p);
    }
  }

  lemma {:induction false} UnforwardedDistinct(forwards: seq<Forward>, p: int)
    requires DistinctPorts(forwards)
    ensures DistinctPorts(Unforwarded(forwards, p))
  {
    if forwards != [] {
      var f, rest := forwards[0], forwards[1..];
      assert forall i :: 0 <= i < |rest| ==> rest[i] == forwards[i + 1];
      UnforwardedDistinct(rest, p);
      UnforwardedMembers(rest, p);
      var kept := Unforwarded(rest, p);
      assert forall i :: 0 <= i < |kept| ==> kept[i] in rest && kept[i].hostPort != f.hostPort;
    }
  }

  lemma {:induction false} UnforwardedSame(forwards: seq<Forward>, p: int)
    requires !Forwards(forwards, p)
    ensures Unforwarded(forwards, p) == forwards
  {
    if forwards != [] {
      var f, rest := forwards[0], forwards[1..];
      assert forwards == [f] + rest && f in forwards;
      assert !Forwards(rest, p);
      UnforwardedSame(rest, p);
    }
  }

  /** Every admitted update keeps a sound document sound. */
  lemma ApplyKeepsSound(c: Config, u: Update, env: Env)
    requires Sound(c, env) && Admitted(u, env)
    ensures Sound(Apply(c, u).0, env)
  {
    hide Acceptable, ValidBandwidth, ValidForward;
    if u.DeleteForward? {
      UnforwardedMembers(c.forwards, u.hostPort);
      UnforwardedDistinct(c.forwards, u.hostPort);
    }
  }

  /** Deleting a forward just added gives back the document there was. */
  lemma DeleteUndoesAdd(c: Config, f: Forward)
    requires Apply(c, AddForward(f)).1 == None
    ensures Apply(Apply(c, AddForward(f)).0, DeleteForward(f.hostPort)) == (c, None)
  {
    UnforwardedAppend(c.forwards, f, f.hostPort);
    UnforwardedSame(c.forwards, f.hostPort);
    var added := c.forwards + [f];
    assert added[|c.forwards|] == f && f in added;
    assert Forwards(added, f.hostPort);
    assert c.forwards + [] == c.forwards;
    assert Unforwarded(added, f.hostPort) == c.forwards;
    assert Apply(c, AddForward(f)).0 == c.(forwards := added);
    assert c.(forwards := added).(forwards := c.forwards) == c;
  }
}
