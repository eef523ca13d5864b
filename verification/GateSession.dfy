/** The password gate and its tokens together: every accepted request goes back to a call
    of TryUnlock that was given the right password. */
module GateSession {
  import Gate
  import GateVerdicts
  import opened Session
  import opened Options

  /** The logins of a token history are tokens minted by the gate, at those moments. */
  ghost predicate MintedBy(h: seq<Mint>, s: Gate.State) {
    forall i :: 0 <= i < |h| && h[i].source.Login? ==> LoginAt(s, h[i].at)
  }

  ghost predicate LoginAt(s: Gate.State, at: nat) {
    exists k :: 0 <= k < |s.logins| && s.logins[k].at == at
  }

  /** In every interleaving of the gate, a request accepted at t with any token issued so
      far descends from a TryUnlock whose guess was the effective password during that
      call, and whose token was minted less than twelve hours before t. */
  lemma AcceptedNeedsThePassword(env: Option<Gate.Password>, stored: Option<Gate.Password>, run: seq<Gate.Action>,
                                 h: seq<Mint>, i: nat, t1: nat, t2: nat)
    requires Gate.CanRun(Gate.Init(env, stored), run)
    requires History(h) && MintedBy(h, Gate.Run(Gate.Init(env, stored), run))
    requires i < |h| && h[i].at <= t1 <= t2 && Accepts(h[i].token, t1, t2)
    ensures var s := Gate.Run(Gate.Init(env, stored), run);
      exists k :: 0 <= k < |s.logins| && GateVerdicts.Genuine(s, s.logins[k])
                  && s.logins[k].at <= h[i].at <= t1 && t2 < s.logins[k].at + MAX_SESSION_LIFETIME
                  && t2 < h[i].at + SESSION_TTL && h[i].token.origin == Unix(s.logins[k].at)
  {
    AcceptedDescendsFromPassword(h, i, t1, t2);
    var s := Gate.Run(Gate.Init(env, stored), run);
    GateVerdicts.InitIsHonest(env, stored);
    GateVerdicts.LoginsInvAlong(Gate.Init(env, stored), run);
    assert LoginAt(s, h[Root(h, i)].at);
    hide Gate.Run, Gate.CanRun, History, GateVerdicts.Genuine, Root;
    var k :| 0 <= k < |s.logins| && s.logins[k].at == h[Root(h, i)].at;
    assert GateVerdicts.Genuine(s, s.logins[k]);
  }
}
