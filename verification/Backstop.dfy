/** The outbound rule list and the checks it must pass before it is stored
    (backend/internal/netgate/config.go), against what the firewall script makes of it
    (config/netgate/firewall.default.sh). */
module Backstop {
  import opened Options
  import opened Cidr
  import opened Numerals
  import opened Powers

  datatype OutboundRule = OutboundRule(action: string, cidr: string)

  datatype OutboundError =
    | InvalidAction
    | InvalidCidr
    | OpensPrivate(rule: OutboundRule, range: Net)
    | MustStayBlocked(range: Net)
    | OpensFixed(rule: OutboundRule, range: Net)

  type Address = x: int | 0 <= x < ADDRESSES

  type PrefixLength = n: int | 0 <= n <= 32

  /** What net.ParseIP and net.ParseCIDR make of a text with a colon: nothing, an IPv6
      network, or an IPv4-mapped address, alone or with a prefix of 96 + ones bits. */
  datatype V6Reading = NotV6 | Native | MappedAddress(ip: Address) | MappedRange(ip: Address, ones: PrefixLength)

  type V6Syntax = string -> V6Reading

  /** What ruleNet returns; the mask of a `wide` one has 96 bits more. */
  datatype Reading = Reading(net: Net, wide: bool)

  /** 10.0.0.0/8, 172.16.0.0/12, 192.168.0.0/16. */
  const PRIVATE_V4: seq<Net> := [Net(0x0A00_0000, 8), Net(0xAC10_0000, 12), Net(0xC0A8_0000, 16)]

  /** 127.0.0.0/8, 169.254.0.0/16, 0.0.0.0/8. */
  const FIXED_BLOCK_V4: seq<Net> := [Net(0x7F00_0000, 8), Net(0xA9FE_0000, 16), Net(0, 8)]

  lemma RangesAreValid()
    ensures forall p :: p in PRIVATE_V4 || p in FIXED_BLOCK_V4 ==> Valid(p)
  {
    BytePowers();
    PowAdd(16, 4);
    ClearMultiple(0x0A, 24);
    ClearMultiple(0xAC1, 20);
    ClearMultiple(0xC0A8, 16);
    ClearMultiple(0x7F, 24);
    ClearMultiple(0xA9FE, 16);
    ClearMultiple(0, 24);
    assert Pow2(4) == 16;
    hide Clear, Pow2;
  }

  predicate Allows(r: OutboundRule) {
    r.action == "allow"
  }

  /** ruleNet, for text of either family. */
  function ReadRule(r: OutboundRule, v6: V6Syntax): (reading: Option<Reading>)
    ensures reading.Some? ==> Valid(reading.value.net)
  {
    match RuleNet(r.cidr)
    case Some(n) => Some(Reading(n, false))
    case None =>
      if ':' !in r.cidr then None
      else
        match v6(r.cidr)
        case MappedAddress(ip) => Some(Reading(Net(ip, 32), false))
        case MappedRange(ip, ones) => ClearedOnce(ip, 32 - ones); Some(Reading(Net(Mask(ip, ones), ones), true))
        case _ => None
  }

  /** covers compares the number of mask bits first. */
  predicate RuleCovers(r: OutboundRule, v6: V6Syntax, range: Net)
    requires Valid(range)
  {
    var n := ReadRule(r, v6);
    n.Some? && !n.value.wide && Covers(n.value.net, range)
  }

  predicate RuleOverlaps(r: OutboundRule, v6: V6Syntax, range: Net)
    requires Valid(range)
  {
    ReadRule(r, v6).Some? && Overlaps(ReadRule(r, v6).value.net, range)
  }

  /** Some rule blocks all of the private range, and none opens all of it. */
  predicate StaysBlocked(rules: seq<OutboundRule>, v6: V6Syntax, range: Net)
    requires Valid(range)
  {
    && (exists r :: r in rules && RuleCovers(r, v6, range))
    && (forall r :: r in rules && RuleCovers(r, v6, range) ==> !Allows(r))
  }

  predicate NothingOpens(rules: seq<OutboundRule>, v6: V6Syntax, range: Net)
    requires Valid(range)
  {
    forall r :: r in rules && Allows(r) ==> !RuleOverlaps(r, v6, range)
  }

  predicate BackstopHolds(rules: seq<OutboundRule>, v6: V6Syntax)
  {
    RangesAreValid();
    && (forall p :: p in PRIVATE_V4 ==> StaysBlocked(rules, v6, p))
    && (forall f :: f in FIXED_BLOCK_V4 ==> NothingOpens(rules, v6, f))
  }

  /** An error names a rule or a range that is at fault. */
  predicate AtFault(rules: seq<OutboundRule>, v6: V6Syntax, e: OutboundError)
  {
    RangesAreValid();
    match e
    case OpensPrivate(r, p) => r in rules && p in PRIVATE_V4 && Allows(r) && RuleCovers(r, v6, p)
    case MustStayBlocked(p) => p in PRIVATE_V4 && forall r :: r in rules ==> !RuleCovers(r, v6, p)
    case OpensFixed(r, f) => r in rules && f in FIXED_BLOCK_V4 && Allows(r) && RuleOverlaps(r, v6, f)
    case _ => false
  }

  /** One private range: the loop over rules with its `blocked` flag. */
  method CheckPrivate(rules: seq<OutboundRule>, v6: V6Syntax, priv: Net) returns (err: Option<OutboundError>)
    requires Valid(priv) && priv in PRIVATE_V4
    ensures err.None? <==> StaysBlocked(rules, v6, priv)
    ensures err.Some? ==> AtFault(rules, v6, err.value)
  {
    hide ReadRule, Covers;
    var blocked := false;
    for i := 0 to |rules|
      invariant blocked <==> exists k :: 0 <= k < i && RuleCovers(rules[k], v6, priv)
      invariant forall k :: 0 <= k < i && RuleCovers(rules[k], v6, priv) ==> !Allows(rules[k])
    {
      var r := rules[i];
      var n := ReadRule(r, v6);
      if n.None? || n.value.wide || !Covers(n.value.net, priv) {
        continue;
      }
      if r.action == "allow" {
        assert RuleCovers(r, v6, priv);
        return Some(OpensPrivate(r, priv));
      }
      blocked := true;
    }
    if !blocked {
      forall r | r in rules ensures !RuleCovers(r, v6, priv) {
        var k :| 0 <= k < |rules| && rules[k] == r;
      }
      return Some(MustStayBlocked(priv));
    }
    return None;
  }

  method CheckV4Backstop(rules: seq<OutboundRule>, v6: V6Syntax) returns (err: Option<OutboundError>)
    ensures err.None? <==> BackstopHolds(rules, v6)
    ensures err.Some? ==> AtFault(rules, v6, err.value)
  {
    RangesAreValid();
    hide ReadRule, Overlaps, StaysBlocked, AtFault;
    for i := 0 to |PRIVATE_V4|
      invariant forall k :: 0 <= k < i ==> StaysBlocked(rules, v6, PRIVATE_V4[k])
    {
      err := CheckPrivate(rules, v6, PRIVATE_V4[i]);
      if err.Some? {
        return;
      }
    }
    for i := 0 to |rules|
      invariant forall k :: 0 <= k < i ==> OpensNothing(rules[k], v6)
    {
      err := CheckFixed(rules, v6, rules[i]);
      if err.Some? {
        return;
      }
    }
    return None;
  }

  predicate OpensNothing(r: OutboundRule, v6: V6Syntax) {
    RangesAreValid();
    Allows(r) ==> forall f :: f in FIXED_BLOCK_V4 ==> !RuleOverlaps(r, v6, f)
  }

  /** One rule of checkV4Backstop's second loop. */
  method CheckFixed(rules: seq<OutboundRule>, v6: V6Syntax, r: OutboundRule) returns (err: Option<OutboundError>)
    requires r in rules
    ensures err.None? <==> OpensNothing(r, v6)
    ensures err.Some? ==> AtFault(rules, v6, err.value)
  {
    RangesAreValid();
    hide ReadRule, Overlaps, Valid;
    var n := ReadRule(r, v6);
    if n.None? || r.action != "allow" {
      return None;
    }
    for j := 0 to |FIXED_BLOCK_V4|
      invariant forall k :: 0 <= k < j ==> !RuleOverlaps(r, v6, FIXED_BLOCK_V4[k])
    {
      if Overlaps(n.value.net, FIXED_BLOCK_V4[j]) {
        assert RuleOverlaps(r, v6, FIXED_BLOCK_V4[j]);
        return Some(OpensFixed(r, FIXED_BLOCK_V4[j]));
      }
    }
    return None;
  }

  predicate KnownAction(r: OutboundRule) {
    r.action == "allow" || r.action == "block"
  }

  predicate ValidCidr(r: OutboundRule, v6: V6Syntax) {
    RuleNet(r.cidr).Some? || (':' in r.cidr && v6(r.cidr) != NotV6)
  }

  predicate Wellformed(r: OutboundRule, v6: V6Syntax) {
    KnownAction(r) && ValidCidr(r, v6)
  }

  predicate Acceptable(rules: seq<OutboundRule>, v6: V6Syntax) {
    (forall r :: r in rules ==> Wellformed(r, v6)) && BackstopHolds(rules, v6)
  }

  /** The kind of an error says what is wrong with the list. */
  predicate Blames(rules: seq<OutboundRule>, v6: V6Syntax, e: OutboundError) {
    match e
    case InvalidAction => exists r :: r in rules && !KnownAction(r)
    case InvalidCidr => exists r :: r in rules && !ValidCidr(r, v6)
    case _ => (forall r :: r in rules ==> Wellformed(r, v6)) && AtFault(rules, v6, e)
  }

  /** ReplaceOutbound up to the point where it takes the lock. */
  method ValidateOutbound(rules: seq<OutboundRule>, v6: V6Syntax) returns (err: Option<OutboundError>)
    ensures err.None? <==> Acceptable(rules, v6)
    ensures err.Some? ==> Blames(rules, v6, err.value)
  {
    hide RuleNet, AtFault, BackstopHolds;
    for i := 0 to |rules|
      invariant forall k :: 0 <= k < i ==> Wellformed(rules[k], v6)
    {
      var r := rules[i];
      assert r in rules;
      if r.action != "allow" && r.action != "block" {
        assert !KnownAction(r);
        return Some(InvalidAction);
      }
      if RuleNet(r.cidr).None? && (':' !in r.cidr || v6(r.cidr) == NotV6) {
        assert !ValidCidr(r, v6);
        return Some(InvalidCidr);
      }
    }
    err := CheckV4Backstop(rules, v6);
    if err.Some? {
      BackstopErrors(rules, v6, err.value);
    }
  }

  lemma BackstopErrors(rules: seq<OutboundRule>, v6: V6Syntax, e: OutboundError)
    requires AtFault(rules, v6, e)
    ensures !e.InvalidAction? && !e.InvalidCidr?
  {
  }

  // --------------------------------------------------------------- the firewall

  datatype Verdict = Accept | Drop | NoMatch

  predicate Matches(r: OutboundRule, x: int) {
    RuleNet(r.cidr).Some? && Contains(RuleNet(r.cidr).value, x)
  }

  /** The outbound part of the NETGATE-FORWARD chain: the rules in order, without those
      the script leaves out, and the first match decides. */
  function Outbound(rules: seq<OutboundRule>, x: int): Verdict {
    if rules == [] then NoMatch
    else if ':' !in rules[0].cidr && ShellAdmits(rules[0].cidr) && Matches(rules[0], x) then
      if rules[0].action == "allow" then Accept
      else if rules[0].action == "block" then Drop
      else Outbound(rules[1..], x)
    else Outbound(rules[1..], x)
  }

  /** What becomes of a new connection to address x: the fixed drops come first. */
  function Firewall(rules: seq<OutboundRule>, x: int): Verdict
  {
    RangesAreValid();
    if exists f :: f in FIXED_BLOCK_V4 && Contains(f, x) then Drop else Outbound(rules, x)
  }

  lemma RuleIsScripted(r: OutboundRule)
    requires RuleNet(r.cidr).Some?
    ensures ':' !in r.cidr && ShellAdmits(r.cidr)
  {
    ParsedIsAdmitted(r.cidr);
  }

  lemma MatchingIsParsed(r: OutboundRule, x: int)
    ensures Matches(r, x) ==> RuleNet(r.cidr).Some?
  {
  }

  predicate FirstMatchAt(rules: seq<OutboundRule>, x: int, k: int) {
    0 <= k < |rules| && Matches(rules[k], x) && forall j :: 0 <= j < k ==> !Matches(rules[j], x)
  }

  lemma FirstMatchLater(rules: seq<OutboundRule>, x: int, k: int)
    requires rules != [] && !Matches(rules[0], x) && FirstMatchAt(rules[1..], x, k)
    ensures FirstMatchAt(rules, x, k + 1) && rules[k + 1] == rules[1..][k]
  {
    hide Matches;
    assert forall j :: 0 < j < k + 1 ==> rules[j] == rules[1..][j - 1];
  }

  /** The first well-formed rule that matches decides. */
  lemma {:induction false} FirstMatchDecides(rules: seq<OutboundRule>, v6: V6Syntax, x: int)
    requires forall r :: r in rules ==> Wellformed(r, v6)
    ensures Outbound(rules, x) == NoMatch <==> forall r :: r in rules ==> !Matches(r, x)
    ensures Outbound(rules, x) != NoMatch ==>
      exists k :: FirstMatchAt(rules, x, k) && Outbound(rules, x) == (if Allows(rules[k]) then Accept else Drop)
  {
    hide ShellAdmits, RuleNet, Matches;
    if rules != [] {
      var r, rest := rules[0], rules[1..];
      assert Wellformed(r, v6);
      assert rules == [r] + rest;
      MatchingIsParsed(r, x);
      if Matches(r, x) {
        RuleIsScripted(r);
        MatchesAtOnce(rules, x);
      } else {
        FirstMatchDecides(rest, v6, x);
        if Outbound(rest, x) != NoMatch {
          var k :| FirstMatchAt(rest, x, k) && Outbound(rest, x) == (if Allows(rest[k]) then Accept else Drop);
          FirstMatchLater(rules, x, k);
        }
      }
    }
  }

  lemma MatchesAtOnce(rules: seq<OutboundRule>, x: int)
    requires rules != [] && Matches(rules[0], x)
    ensures FirstMatchAt(rules, x, 0)
  {
  }

  predicate StrictlyInside(r: OutboundRule, range: Net)
    requires Valid(range)
  {
    RuleNet(r.cidr).Some? && Covers(range, RuleNet(r.cidr).value) && RuleNet(r.cidr).value.ones > range.ones
  }

  /** Only dotted quads cover a private range. */
  lemma CoveringIsDotted(r: OutboundRule, v6: V6Syntax, p: Net)
    requires Valid(p) && p.ones < 32 && RuleCovers(r, v6, p)
    ensures RuleNet(r.cidr).Some? && Covers(RuleNet(r.cidr).value, p)
  {
  }

  lemma DottedIsRead(r: OutboundRule, v6: V6Syntax)
    ensures RuleNet(r.cidr).Some? ==> ReadRule(r, v6) == Some(Reading(RuleNet(r.cidr).value, false))
  {
  }

  /** An allow rule of an accepted list that matches an address of a private range is
      strictly narrower than the range. */
  lemma AllowIsInside(rules: seq<OutboundRule>, v6: V6Syntax, p: Net, x: int, r: OutboundRule)
    requires Acceptable(rules, v6) && p in PRIVATE_V4 && Valid(p) && Contains(p, x)
    requires r in rules && Allows(r) && Matches(r, x)
    ensures StrictlyInside(r, p)
  {
    hide RuleNet, ReadRule, Contains;
    RangesAreValid();
    var n := RuleNet(r.cidr).value;
    DottedIsRead(r, v6);
    assert StaysBlocked(rules, v6, p);
    assert !RuleCovers(r, v6, p);
    HasItsBase(p);
    HasItsBase(n);
    if n.ones <= p.ones {
      NestedOrDisjoint(n, p, x, p.base);
    } else {
      NestedOrDisjoint(p, n, x, n.base);
    }
  }

  /** Of an accepted list, an address of a private range gets through only by an allow
      rule that matches it and is strictly narrower than the range. */
  lemma PrivateNeedsANarrowAllow(rules: seq<OutboundRule>, v6: V6Syntax, p: Net, x: int)
    requires Acceptable(rules, v6) && p in PRIVATE_V4 && Valid(p) && Contains(p, x)
    requires Firewall(rules, x) != Drop
    ensures exists r :: r in rules && Allows(r) && Matches(r, x) && StrictlyInside(r, p)
  {
    hide RuleNet, ReadRule, Pow2, Contains, ShellAdmits;
    RangesAreValid();
    assert StaysBlocked(rules, v6, p);
    var b :| b in rules && RuleCovers(b, v6, p);
    CoveringIsDotted(b, v6, p);
    CoversIsInclusion(RuleNet(b.cidr).value, p);
    assert Matches(b, x);
    FirstMatchDecides(rules, v6, x);
    var k :| FirstMatchAt(rules, x, k) && Outbound(rules, x) == (if Allows(rules[k]) then Accept else Drop);
    AllowIsInside(rules, v6, p, x, rules[k]);
  }

  /** The addresses of a rule as the backend reads it, in either spelling. */
  predicate ReadsAs(r: OutboundRule, v6: V6Syntax, x: int) {
    ReadRule(r, v6).Some? && Contains(ReadRule(r, v6).value.net, x)
  }

  /** No allow rule of an accepted list names any address of a fixed range, also not in an
      IPv4-mapped spelling. */
  lemma FixedIsNeverAllowed(rules: seq<OutboundRule>, v6: V6Syntax, f: Net, x: int, r: OutboundRule)
    requires Acceptable(rules, v6) && f in FIXED_BLOCK_V4 && Valid(f)
    requires r in rules && Allows(r) && (Matches(r, x) || ReadsAs(r, v6, x))
    ensures !Contains(f, x)
  {
    DottedIsRead(r, v6);
    hide RuleNet, ReadRule, Pow2, Contains;
    RangesAreValid();
    assert NothingOpens(rules, v6, f);
    OverlapsIsIntersection(ReadRule(r, v6).value.net, f);
  }

  /** All addresses of n, in a spelling without extra mask bits. */
  ghost predicate ReadsAsAll(r: OutboundRule, v6: V6Syntax, n: Net)
    requires Valid(n)
  {
    ReadRule(r, v6).Some? && !ReadRule(r, v6).value.wide && forall x :: Contains(n, x) ==> ReadsAs(r, v6, x)
  }

  /** What the backstop admits, in terms of addresses alone: each private range has one
      rule that names all of it and no such rule allows; no allow rule names any address
      of a fixed range. */
  lemma BackstopExactly(rules: seq<OutboundRule>, v6: V6Syntax)
    ensures BackstopHolds(rules, v6) <==>
      && (forall p :: p in PRIVATE_V4 && Valid(p) ==>
            (exists r :: r in rules && ReadsAsAll(r, v6, p))
            && forall r :: r in rules && ReadsAsAll(r, v6, p) ==> !Allows(r))
      && (forall f, r, x :: f in FIXED_BLOCK_V4 && Valid(f) && Contains(f, x) && r in rules && ReadsAs(r, v6, x) ==> !Allows(r))
  {
    RangesAreValid();
    hide RuleNet, ReadRule, Pow2, Contains, Covers, Overlaps, Valid;
    forall p, r | p in PRIVATE_V4 ensures RuleCovers(r, v6, p) <==> ReadsAsAll(r, v6, p) {
      if ReadRule(r, v6).Some? {
        CoversIsInclusion(ReadRule(r, v6).value.net, p);
        assert forall x :: ReadsAs(r, v6, x) <==> Contains(ReadRule(r, v6).value.net, x);
      }
    }
    forall f, r | f in FIXED_BLOCK_V4 ensures RuleOverlaps(r, v6, f) <==> exists x :: Contains(f, x) && ReadsAs(r, v6, x) {
      if ReadRule(r, v6).Some? {
        OverlapsIsIntersection(ReadRule(r, v6).value.net, f);
        if x :| Contains(ReadRule(r, v6).value.net, x) && Contains(f, x) {
          assert ReadsAs(r, v6, x);
        }
      }
    }
    assert forall p :: p in PRIVATE_V4 ==> (StaysBlocked(rules, v6, p) <==>
      ((exists r :: r in rules && ReadsAsAll(r, v6, p)) && forall r :: r in rules && ReadsAsAll(r, v6, p) ==> !Allows(r)));
    assert forall f :: f in FIXED_BLOCK_V4 ==> (NothingOpens(rules, v6, f) <==>
      (forall r, x :: Contains(f, x) && r in rules && ReadsAs(r, v6, x) ==> !Allows(r)));
  }
}
