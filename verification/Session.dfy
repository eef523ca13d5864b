/** Unlock tokens of the password gate (backend/internal/authgate/gate.go): signed,
    self-contained, slid forward on use, capped from the moment a password was typed.
    Times are nanoseconds; tokens carry whole seconds. Clock readings never go back. */
module Session {
  import opened Options

  const SECOND: nat := 1_000_000_000
  const SESSION_TTL: nat := 900 * SECOND
  const MAX_SESSION_LIFETIME: nat := 43_200 * SECOND
  const REFRESH_THRESHOLD: nat := SESSION_TTL / 2

  /** The two timestamps of a token whose signature verified. */
  datatype Token = Token(origin: int, refreshed: int)

  function Unix(t: nat): nat {
    t / SECOND
  }

  /** tokenTimes' refusal of timestamps in the future or in the wrong order. */
  predicate TimesOk(tok: Token, now: nat) {
    tok.origin * SECOND <= now && tok.refreshed * SECOND <= now && tok.origin <= tok.refreshed
  }

  function Deadline(tok: Token): int {
    var idle := tok.refreshed * SECOND + SESSION_TTL;
    var hard := tok.origin * SECOND + MAX_SESSION_LIFETIME;
    if hard < idle then hard else idle
  }

  /** UnlockedUntil: t1 is the clock reading in tokenTimes, t2 the one against the deadline. */
  predicate Accepts(tok: Token, t1: nat, t2: nat) {
    TimesOk(tok, t1) && t2 < Deadline(tok)
  }

  /** refreshCookie after an accepted request, with its own two clock readings. */
  function Refresh(tok: Token, t3: nat, t4: nat): Option<Token> {
    if TimesOk(tok, t3) && t4 - tok.refreshed * SECOND >= REFRESH_THRESHOLD
    then Some(Token(tok.origin, Unix(t4)))
    else None
  }

  /** The four clock readings of one gated request. */
  datatype Visit = Visit(t1: nat, t2: nat, t3: nat, t4: nat)

  predicate Ordered(v: Visit) {
    v.t1 <= v.t2 <= v.t3 <= v.t4
  }

  /** Why the gate signed a token: a password was typed, or an accepted request slid an older one. */
  datatype Source = Login | Slide(parent: nat, visit: Visit)

  datatype Mint = Mint(token: Token, at: nat, source: Source)

  /** h[i] was signed by issueToken or by refreshCookie, for a token signed before. */
  predicate Legal(h: seq<Mint>, i: nat)
    requires i < |h|
  {
    match h[i].source
    case Login => h[i].token == Token(Unix(h[i].at), Unix(h[i].at))
    case Slide(p, v) =>
      && p < i && h[p].at <= v.t1 && Ordered(v) && v.t4 == h[i].at
      && Accepts(h[p].token, v.t1, v.t2)
      && Refresh(h[p].token, v.t3, v.t4) == Some(h[i].token)
  }

  /** Everything the gate has ever signed. Any token in it may be presented at any
      time after its minting, as often as the client likes, by any number of requests
      at once. */
  ghost predicate History(h: seq<Mint>) {
    forall i :: 0 <= i < |h| ==> Legal(h, i)
  }

  /** The login a token goes back to through the tokens it was slid from. */
  function Root(h: seq<Mint>, i: nat): (r: nat)
    requires i < |h|
    ensures r <= i
    decreases i
  {
    if h[i].source.Slide? && h[i].source.parent < i then Root(h, h[i].source.parent) else i
  }

  lemma {:induction false} RootFixesOrigin(h: seq<Mint>, i: nat)
    requires History(h) && i < |h|
    ensures var r := Root(h, i);
      && h[r].source.Login? && h[r].at <= h[i].at
      && h[i].token.origin == Unix(h[r].at)
      && h[i].token.refreshed == Unix(h[i].at)
    decreases i
  {
    assert Legal(h, i);
    if h[i].source.Slide? {
      RootFixesOrigin(h, h[i].source.parent);
    }
  }

  /** Every accepted request, with whichever token signed so far, goes back to a typed
      password less than twelve hours before, and its token was minted less than
      fifteen minutes before; sliding never moves the origin. */
  lemma AcceptedDescendsFromPassword(h: seq<Mint>, i: nat, t1: nat, t2: nat)
    requires History(h) && i < |h| && h[i].at <= t1 <= t2
    requires Accepts(h[i].token, t1, t2)
    ensures var o := h[Root(h, i)].at;
      && h[Root(h, i)].source.Login?
      && o <= h[i].at <= t1
      && t2 < o + MAX_SESSION_LIFETIME
      && t2 < h[i].at + SESSION_TTL
      && h[i].token.origin == Unix(o)
  {
    RootFixesOrigin(h, i);
  }

  /** For a token the gate signed, acceptance is exactly the two deadlines, counted in
      whole seconds; the order and future checks refuse nothing genuine. */
  lemma AcceptedExactly(h: seq<Mint>, i: nat, t1: nat, t2: nat)
    requires History(h) && i < |h| && h[i].at <= t1 <= t2
    ensures Accepts(h[i].token, t1, t2) <==>
      t2 < Unix(h[i].at) * SECOND + SESSION_TTL && t2 < Unix(h[Root(h, i)].at) * SECOND + MAX_SESSION_LIFETIME
  {
    RootFixesOrigin(h, i);
    assert Unix(h[Root(h, i)].at) <= Unix(h[i].at);
  }

  /** The cookie a browser holds after a visit. */
  function Newest(tok: Token, v: Visit): Token {
    match Refresh(tok, v.t3, v.t4)
    case Some(t) => t
    case None => tok
  }

  /** Each visit presents its cookie at most gap after the previous one ended, and
      before the twelve hours are over. */
  predicate Steady(origin: int, last: nat, visits: seq<Visit>, gap: nat)
    decreases |visits|
  {
    visits == [] || (
      && Ordered(visits[0]) && last <= visits[0].t1
      && visits[0].t2 <= last + gap
      && visits[0].t2 < origin * SECOND + MAX_SESSION_LIFETIME
      && Steady(origin, visits[0].t4, visits[1..], gap))
  }

  predicate AllAccepted(tok: Token, visits: seq<Visit>)
    decreases |visits|
  {
    visits == [] || (Accepts(tok, visits[0].t1, visits[0].t2) && AllAccepted(Newest(tok, visits[0]), visits[1..]))
  }

  /** The newest cookie is younger than the refresh threshold at the end of a visit. */
  predicate Fresh(tok: Token, last: nat) {
    tok.origin <= tok.refreshed && tok.refreshed * SECOND <= last < tok.refreshed * SECOND + REFRESH_THRESHOLD
  }

  lemma {:induction false} SteadyFrom(tok: Token, last: nat, visits: seq<Visit>)
    requires Fresh(tok, last) && Steady(tok.origin, last, visits, REFRESH_THRESHOLD)
    ensures AllAccepted(tok, visits)
    decreases |visits|
  {
    if visits != [] {
      var v := visits[0];
      assert tok.refreshed <= Unix(v.t4) by {
        assert tok.refreshed * SECOND <= v.t4;
      }
      SteadyFrom(Newest(tok, v), v.t4, visits[1..]);
    }
  }

  /** Somebody who comes back at least every seven and a half minutes is never asked
      for the password again before the twelve hours are over, although most visits do
      not refresh the cookie and timestamps lose their fraction of a second. */
  lemma SteadyUseStaysUnlocked(at: nat, visits: seq<Visit>)
    requires Steady(Unix(at), at, visits, REFRESH_THRESHOLD)
    ensures AllAccepted(Token(Unix(at), Unix(at)), visits)
  {
    SteadyFrom(Token(Unix(at), Unix(at)), at, visits);
  }

  /** Seven and a half minutes is the exact limit: any longer pause can lose the session. */
  lemma LongerPausesCanLock(gap: nat)
    requires REFRESH_THRESHOLD < gap
    ensures exists visits :: Steady(0, 0, visits, gap) && !AllAccepted(Token(0, 0), visits)
  {
    var a := REFRESH_THRESHOLD - 1;
    var b := a + REFRESH_THRESHOLD + 1;
    var second := [Visit(b, b, b, b)];
    var visits := [Visit(a, a, a, a)] + second;
    assert visits[1..] == second;
    assert Steady(0, a, second, gap);
    assert Newest(Token(0, 0), visits[0]) == Token(0, 0);
    assert !AllAccepted(Token(0, 0), second);
    assert Steady(0, 0, visits, gap) && !AllAccepted(Token(0, 0), visits);
  }

  /** Which tokens with a good signature are accepted, also ones the gate never minted, in
      seconds: times in order and not ahead of the clock, refreshed less than fifteen
      minutes ago, the password typed less than twelve hours ago. */
  lemma AcceptedInSeconds(tok: Token, t1: nat, t2: nat)
    ensures Accepts(tok, t1, t2) <==>
      && tok.origin <= tok.refreshed <= Unix(t1)
      && t2 < (tok.refreshed + 15 * 60) * 1_000_000_000 && t2 < (tok.origin + 12 * 60 * 60) * 1_000_000_000
  {
    assert tok.refreshed <= Unix(t1) <==> tok.refreshed * SECOND <= t1;
    assert tok.origin <= Unix(t1) <==> tok.origin * SECOND <= t1;
  }

  /** A new cookie is set exactly when the old one is at least seven and a half minutes
      old; it keeps the login's time, never shortens the session, and lengthens it until
      the twelve hours bound it. */
  lemma RefreshExtends(tok: Token, t1: nat, t2: nat, t3: nat, t4: nat)
    requires t1 <= t2 <= t3 <= t4 && Accepts(tok, t1, t2)
    ensures var next := Refresh(tok, t3, t4);
      && (next.Some? <==> t4 >= tok.refreshed * 1_000_000_000 + 450 * 1_000_000_000)
      && (next.Some? ==>
            && next.value.origin == tok.origin && next.value.refreshed == Unix(t4) > tok.refreshed
            && Deadline(next.value) >= Deadline(tok)
            && (Deadline(next.value) > Deadline(tok) <==> Deadline(tok) < tok.origin * SECOND + MAX_SESSION_LIFETIME))
  {
    if t4 >= tok.refreshed * SECOND + REFRESH_THRESHOLD {
      assert Unix(t4) > tok.refreshed by {
        assert t4 >= (tok.refreshed + 1) * SECOND;
      }
    }
  }
}
