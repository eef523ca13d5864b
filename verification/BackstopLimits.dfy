/** How far an accepted outbound list keeps a private range closed. */
module BackstopLimits {
  import opened Options
  import opened Cidr
  import opened Numerals
  import opened Powers
  import opened Backstop

  // ------------------------------------------------- exactly which ranges are closed

  /** The address x of p gets through by the k-th rule, an allow inside p: it matches x,
      and no earlier rule does. */
  ghost predicate GetsThrough(rules: seq<OutboundRule>, p: Net, k: int, x: int)
    requires Valid(p)
  {
    Contains(p, x) && FirstMatchAt(rules, x, k) && Allows(rules[k]) && StrictlyInside(rules[k], p)
  }

  ghost predicate Closed(rules: seq<OutboundRule>, p: Net)
    requires Valid(p)
  {
    forall x :: Contains(p, x) ==> Outbound(rules, x) == Drop
  }

  lemma ThroughByTheFirst(rules: seq<OutboundRule>, v6: V6Syntax, p: Net, x: int)
    requires Acceptable(rules, v6) && p in PRIVATE_V4 && Valid(p) && Contains(p, x)
    ensures Outbound(rules, x) != Drop <==> exists k :: GetsThrough(rules, p, k, x)
  {
    hide RuleNet, ReadRule, Contains, ShellAdmits, StrictlyInside, BackstopHolds, Matches, Valid;
    FirstMatchDecides(rules, v6, x);
    if Outbound(rules, x) != Drop {
      SomeRuleMatches(rules, v6, p, x);
      var k :| FirstMatchAt(rules, x, k) && Outbound(rules, x) == (if Allows(rules[k]) then Accept else Drop);
      AllowIsInside(rules, v6, p, x, rules[k]);
      assert GetsThrough(rules, p, k, x);
    } else {
      var k :| FirstMatchAt(rules, x, k) && Outbound(rules, x) == (if Allows(rules[k]) then Accept else Drop);
      assert forall j :: FirstMatchAt(rules, x, j) ==> j == k;
    }
  }

  lemma SomeRuleMatches(rules: seq<OutboundRule>, v6: V6Syntax, p: Net, x: int)
    requires Acceptable(rules, v6) && p in PRIVATE_V4 && Valid(p) && Contains(p, x)
    ensures exists r :: r in rules && Matches(r, x)
  {
    hide RuleNet, ReadRule, Contains;
    RangesAreValid();
    assert StaysBlocked(rules, v6, p);
    var b :| b in rules && RuleCovers(b, v6, p);
    CoveringIsDotted(b, v6, p);
    CoversIsInclusion(RuleNet(b.cidr).value, p);
    assert Matches(b, x);
  }

  /** For an accepted list: all of a private range is dropped, exactly if no allow rule
      inside the range has an address that no earlier rule matches. */
  lemma ClosedExactly(rules: seq<OutboundRule>, v6: V6Syntax, p: Net)
    requires Acceptable(rules, v6) && p in PRIVATE_V4 && Valid(p)
    ensures Closed(rules, p) <==> !exists k, x :: GetsThrough(rules, p, k, x)
  {
    hide Acceptable, Contains, Outbound, FirstMatchAt, StrictlyInside, Valid;
    forall x | Contains(p, x) ensures Outbound(rules, x) != Drop <==> exists k :: GetsThrough(rules, p, k, x) {
      ThroughByTheFirst(rules, v6, p, x);
    }
  }

  // ------------------------------------------------- deciding it from the rules alone

  /** The script emits the rule as one about IPv4. */
  predicate Emitted(r: OutboundRule) {
    RuleNet(r.cidr).Some? && KnownAction(r)
  }

  /** Every address of n gets the verdict: the first rule that has to do with n decides, if
      it covers n, and otherwise n is split in two. */
  predicate AllGet(rules: seq<OutboundRule>, n: Net, verdict: Verdict)
    requires Valid(n)
    decreases 32 - n.ones, |rules|
  {
    if rules == [] then verdict == NoMatch
    else if !Emitted(rules[0]) || !Overlaps(RuleNet(rules[0].cidr).value, n) then AllGet(rules[1..], n, verdict)
    else if n.ones == 32 || Covers(RuleNet(rules[0].cidr).value, n) then
      verdict == if Allows(rules[0]) then Accept else Drop
    else AllGet(rules, LowerHalf(n), verdict) && AllGet(rules, UpperHalf(n), verdict)
  }

  lemma SkippedRule(rules: seq<OutboundRule>, n: Net, x: int)
    requires rules != [] && Valid(n) && Contains(n, x)
    requires !Emitted(rules[0]) || !Overlaps(RuleNet(rules[0].cidr).value, n)
    ensures Outbound(rules, x) == Outbound(rules[1..], x)
  {
    hide RuleNet, Contains, Overlaps, ShellAdmits;
    if Emitted(rules[0]) {
      OverlapsIsIntersection(RuleNet(rules[0].cidr).value, n);
    }
  }

  lemma DecidingRule(rules: seq<OutboundRule>, n: Net, x: int)
    requires rules != [] && Valid(n) && Contains(n, x)
    requires Emitted(rules[0]) && Overlaps(RuleNet(rules[0].cidr).value, n)
    requires n.ones == 32 || Covers(RuleNet(rules[0].cidr).value, n)
    ensures Outbound(rules, x) == if Allows(rules[0]) then Accept else Drop
  {
    var m := RuleNet(rules[0].cidr).value;
    RuleIsScripted(rules[0]);
    hide RuleNet, Clear, ShellAdmits;
    HasItsBase(m);
    HasItsBase(n);
    assert Covers(m, n);
    CoversIsInclusion(m, n);
  }

  /** The procedure decides what every address of the network gets, for every list. */
  lemma {:induction false} AllGetExactly(rules: seq<OutboundRule>, n: Net, verdict: Verdict)
    requires Valid(n)
    ensures AllGet(rules, n, verdict) <==> forall x :: Contains(n, x) ==> Outbound(rules, x) == verdict
    decreases 32 - n.ones, |rules|
  {
    HasItsBase(n);
    hide RuleNet, Contains, Overlaps, Covers, Emitted, Outbound, Valid, LowerHalf, UpperHalf;
    if rules == [] {
      NoRules();
    } else if !Emitted(rules[0]) || !Overlaps(RuleNet(rules[0].cidr).value, n) {
      forall x | Contains(n, x) ensures Outbound(rules, x) == Outbound(rules[1..], x) {
        SkippedRule(rules, n, x);
      }
      AllGetExactly(rules[1..], n, verdict);
    } else if n.ones == 32 || Covers(RuleNet(rules[0].cidr).value, n) {
      forall x | Contains(n, x) ensures Outbound(rules, x) == if Allows(rules[0]) then Accept else Drop {
        DecidingRule(rules, n, x);
      }
    } else {
      HalfIsNarrower(n);
      AllGetExactly(rules, LowerHalf(n), verdict);
      AllGetExactly(rules, UpperHalf(n), verdict);
      forall x ensures Contains(n, x) <==> Contains(LowerHalf(n), x) || Contains(UpperHalf(n), x) {
        HalvesMakeTheWhole(n, x);
      }
    }
  }

  lemma NoRules()
    ensures forall x :: Outbound([], x) == NoMatch
  {
  }

  lemma HalfIsNarrower(n: Net)
    requires Valid(n) && n.ones < 32
    ensures LowerHalf(n).ones == n.ones + 1 && UpperHalf(n).ones == n.ones + 1
  {
  }

  /** So whether a list keeps a range closed, and whether it opens all of it, can be
      checked before the list is stored. */
  lemma ClosedIsDecided(rules: seq<OutboundRule>, p: Net)
    requires Valid(p)
    ensures Closed(rules, p) <==> AllGet(rules, p, Drop)
    ensures (forall x :: Contains(p, x) ==> Outbound(rules, x) == Accept) <==> AllGet(rules, p, Accept)
  {
    hide Contains, Outbound, AllGet, Valid;
    AllGetExactly(rules, p, Drop);
    AllGetExactly(rules, p, Accept);
  }

  // ------------------------------------------------------------ counting addresses

  function Range(lo: int, size: nat): (s: set<int>)
    ensures forall x :: x in s <==> lo <= x < lo + size
  {
    if size == 0 then {} else Range(lo, size - 1) + {lo + size - 1}
  }

  lemma {:induction false} RangeHasSize(lo: int, size: nat)
    ensures |Range(lo, size)| == size
  {
    if size > 0 {
      RangeHasSize(lo, size - 1);
    }
  }

  predicate NarrowAllow(r: OutboundRule, p: Net)
    requires Valid(p)
  {
    Allows(r) && StrictlyInside(r, p)
  }

  /** How many addresses the allow rules inside p name, counted rule by rule. */
  function AllowedInside(rules: seq<OutboundRule>, p: Net): nat
    requires Valid(p)
  {
    if rules == [] then 0
    else (if NarrowAllow(rules[0], p) then Size(RuleNet(rules[0].cidr).value.ones) else 0) + AllowedInside(rules[1..], p)
  }

  function NamedInside(rules: seq<OutboundRule>, p: Net): set<int>
    requires Valid(p)
  {
    if rules == [] then {}
    else
      (if NarrowAllow(rules[0], p)
       then var n := RuleNet(rules[0].cidr).value; Range(n.base, Size(n.ones)) else {})
      + NamedInside(rules[1..], p)
  }

  lemma {:induction false} NamedIsCounted(rules: seq<OutboundRule>, p: Net)
    requires Valid(p)
    ensures |NamedInside(rules, p)| <= AllowedInside(rules, p)
  {
    hide RuleNet, NarrowAllow, Range, Size, Valid;
    if rules != [] {
      NamedIsCounted(rules[1..], p);
      if NarrowAllow(rules[0], p) {
        AllowIsParsed(rules[0], p);
        var n := RuleNet(rules[0].cidr).value;
        RangeHasSize(n.base, Size(n.ones));
        UnionIsSmall(Range(n.base, Size(n.ones)), NamedInside(rules[1..], p));
      }
    }
  }

  lemma AllowIsParsed(r: OutboundRule, p: Net)
    requires Valid(p) && NarrowAllow(r, p)
    ensures RuleNet(r.cidr).Some? && 0 <= RuleNet(r.cidr).value.ones <= 32
  {
  }

  lemma UnionIsSmall(a: set<int>, b: set<int>)
    ensures |a + b| <= |a| + |b|
  {
    assert a + b == a + (b - a);
    assert |b - a| <= |b| by {
      assert b == (b - a) + (b * a);
    }
  }

  lemma SubsetIsSmaller(a: set<int>, b: set<int>)
    requires a <= b
    ensures |a| <= |b|
  {
    assert b == a + (b - a);
  }

  lemma {:induction false} NamedHasMatched(rules: seq<OutboundRule>, p: Net, r: OutboundRule, x: int)
    requires Valid(p) && r in rules && NarrowAllow(r, p) && Matches(r, x)
    ensures x in NamedInside(rules, p)
  {
    if rules[0] == r {
      IsInterval(RuleNet(r.cidr).value, x);
    } else {
      assert rules == [rules[0]] + rules[1..];
      NamedHasMatched(rules[1..], p, r, x);
    }
  }

  /** An accepted list whose allow rules inside a private range name fewer addresses than
      the range has, even counted with repetition, keeps some of the range closed. */
  lemma FewAllowsLeaveSomeClosed(rules: seq<OutboundRule>, v6: V6Syntax, p: Net)
    requires Acceptable(rules, v6) && p in PRIVATE_V4 && Valid(p)
    requires AllowedInside(rules, p) < Size(p.ones)
    ensures exists x :: Contains(p, x) && Outbound(rules, x) == Drop
  {
    var all := Range(p.base, Size(p.ones));
    RangeHasSize(p.base, Size(p.ones));
    NamedIsCounted(rules, p);
    hide Acceptable, Size, NamedInside, AllowedInside, Outbound, Contains, Matches, StrictlyInside, Valid;
    if all <= NamedInside(rules, p) {
      SubsetIsSmaller(all, NamedInside(rules, p));
    }
    var x :| x in all && x !in NamedInside(rules, p);
    IsInterval(p, x);
    if Outbound(rules, x) != Drop {
      NarrowAllowOf(rules, v6, p, x);
    }
  }

  lemma NarrowAllowOf(rules: seq<OutboundRule>, v6: V6Syntax, p: Net, x: int)
    requires Acceptable(rules, v6) && p in PRIVATE_V4 && Valid(p) && Contains(p, x)
    requires Outbound(rules, x) != Drop
    ensures x in NamedInside(rules, p)
  {
    hide Acceptable, NamedInside, Contains, Matches, StrictlyInside, Valid;
    ThroughByTheFirst(rules, v6, p, x);
    var k :| GetsThrough(rules, p, k, x);
    NamedHasMatched(rules, p, rules[k], x);
  }

  // -------------------------------------------------------- a range that is opened

  /** allow 10.0.0.0/9, allow 10.128.0.0/9, block 0.0.0.0/0. */
  const HALVES: seq<OutboundRule> := [
    OutboundRule("allow", Spelled("10", "0", "0", "0", "9")),
    OutboundRule("allow", Spelled("10", "128", "0", "0", "9")),
    OutboundRule("block", Spelled("0", "0", "0", "0", "0"))]

  lemma HalvesParse()
    ensures RuleNet(HALVES[0].cidr) == Some(Net(0x0A00_0000, 9))
    ensures RuleNet(HALVES[1].cidr) == Some(Net(0x0A80_0000, 9))
    ensures RuleNet(HALVES[2].cidr) == Some(Net(0, 0))
  {
    SampleNumerals();
    SampleMasks();
    hide ParseOctet, ParseOnes, RuleNet, Pow2, Spelled, Mask;
    QuadParses("10", "0", "0", "0", "9");
    QuadParses("10", "128", "0", "0", "9");
    QuadParses("0", "0", "0", "0", "0");
  }

  lemma SampleMasks()
    ensures Mask(0x0A00_0000, 9) == 0x0A00_0000 && Mask(0x0A80_0000, 9) == 0x0A80_0000 && Mask(0, 0) == 0
  {
    Sizes();
    ClearMultiple(0x14, 23);
    ClearMultiple(0x15, 23);
    ClearMultiple(0, 32);
    hide Clear, Pow2;
  }

  lemma SampleNumerals()
    ensures ParseOctet("0") == Some(0) && ParseOctet("10") == Some(10) && ParseOctet("128") == Some(128)
    ensures ParseOnes("9") == Some(9) && ParseOnes("0") == Some(0)
  {
    assert "128"[..2] == "12" && "12"[..1] == "1" && "10"[..1] == "1" && "1"[..0] == "";
    assert Value("1") == 1 && Value("12") == 12;
  }

  lemma Sizes()
    ensures Size(0) == ADDRESSES && Size(8) == 0x100_0000 && Size(9) == 0x80_0000
    ensures Size(12) == 0x10_0000 && Size(16) == 0x1_0000
  {
    BytePowers();
    PowAdd(16, 7);
    PowAdd(16, 4);
    assert Pow2(7) == 128 && Pow2(4) == 16;
  }

  lemma HalfIsClear(n: Net)
    requires n == Net(0x0A00_0000, 9) || n == Net(0x0A80_0000, 9)
    ensures Valid(n)
    ensures forall p :: p in PRIVATE_V4 && Valid(p) ==> !Covers(n, p)
    ensures forall f :: f in FIXED_BLOCK_V4 && Valid(f) ==> !Overlaps(n, f)
  {
    Sizes();
    SampleMasks();
    hide Size, Contains, Mask;
    forall p | p in PRIVATE_V4 && Valid(p) ensures !Covers(n, p) {
      IsInterval(n, p.base);
    }
    forall f | f in FIXED_BLOCK_V4 && Valid(f) ensures !Overlaps(n, f) {
      IsInterval(n, f.base);
      IsInterval(f, n.base);
    }
  }

  lemma HalvesMembers()
    ensures forall r :: r in HALVES ==> r == HALVES[0] || r == HALVES[1] || r == HALVES[2]
    ensures Allows(HALVES[0]) && Allows(HALVES[1]) && !Allows(HALVES[2]) && HALVES[2].action == "block"
    ensures HALVES[0] in HALVES && HALVES[1] in HALVES && HALVES[2] in HALVES
  {
  }

  lemma HalvesRead(v6: V6Syntax)
    ensures ReadRule(HALVES[0], v6) == Some(Reading(Net(0x0A00_0000, 9), false))
    ensures ReadRule(HALVES[1], v6) == Some(Reading(Net(0x0A80_0000, 9), false))
    ensures ReadRule(HALVES[2], v6) == Some(Reading(Net(0, 0), false))
  {
    HalvesParse();
    hide RuleNet, HALVES;
  }

  lemma HalvesCover(v6: V6Syntax, p: Net)
    requires p in PRIVATE_V4 && Valid(p)
    ensures RuleCovers(HALVES[2], v6, p) && !RuleCovers(HALVES[0], v6, p) && !RuleCovers(HALVES[1], v6, p)
  {
    HalvesParse();
    HalfIsClear(Net(0x0A00_0000, 9));
    HalfIsClear(Net(0x0A80_0000, 9));
    CoversAll(p);
    HalvesRead(v6);
    hide RuleNet, ReadRule, Covers, HALVES, Valid, Mask;
  }

  lemma HalvesKeep(v6: V6Syntax, p: Net)
    requires p in PRIVATE_V4 && Valid(p)
    ensures StaysBlocked(HALVES, v6, p)
  {
    HalvesMembers();
    HalvesCover(v6, p);
    hide RuleCovers, HALVES, Valid, Mask;
  }

  lemma CoversAll(p: Net)
    requires Valid(p)
    ensures Valid(Net(0, 0)) && Covers(Net(0, 0), p)
  {
    Sizes();
    SampleMasks();
    hide Size, Contains, Mask, Pow2;
    IsInterval(Net(0, 0), p.base);
  }

  lemma HalvesOpenNothing(v6: V6Syntax, f: Net)
    requires f in FIXED_BLOCK_V4 && Valid(f)
    ensures NothingOpens(HALVES, v6, f)
  {
    HalvesMembers();
    HalvesRead(v6);
    HalfIsClear(Net(0x0A00_0000, 9));
    HalfIsClear(Net(0x0A80_0000, 9));
    hide RuleNet, ReadRule, Spelled, Contains, Overlaps, HALVES;
  }

  lemma HalvesAreAcceptable(v6: V6Syntax)
    ensures Acceptable(HALVES, v6)
  {
    RangesAreValid();
    HalvesMembers();
    HalvesParse();
    hide RuleNet, Spelled, HALVES, StaysBlocked, NothingOpens, Valid;
    forall p | p in PRIVATE_V4 ensures StaysBlocked(HALVES, v6, p) {
      HalvesKeep(v6, p);
    }
    forall f | f in FIXED_BLOCK_V4 ensures NothingOpens(HALVES, v6, f) {
      HalvesOpenNothing(v6, f);
    }
    assert BackstopHolds(HALVES, v6);
    forall r | r in HALVES ensures Wellformed(r, v6) {
    }
  }

  /** Strictly narrower allows can still add up: this list is accepted, and no address of
      10.0.0.0/8 is blocked by it. */
  lemma TwoHalvesOpenTheRange(v6: V6Syntax, x: int)
    requires Valid(PRIVATE_V4[0]) && Contains(PRIVATE_V4[0], x)
    ensures Acceptable(HALVES, v6) && Outbound(HALVES, x) == Accept
  {
    HalvesAreAcceptable(v6);
    HalvesParse();
    HalfIsClear(Net(0x0A00_0000, 9));
    HalfIsClear(Net(0x0A80_0000, 9));
    Sizes();
    hide RuleNet, Spelled, Contains, Size, ShellAdmits, Acceptable, Valid;
    RuleIsScripted(HALVES[0]);
    RuleIsScripted(HALVES[1]);
    IsInterval(PRIVATE_V4[0], x);
    IsInterval(Net(0x0A00_0000, 9), x);
    IsInterval(Net(0x0A80_0000, 9), x);
    assert HALVES[1..][0] == HALVES[1];
    assert Matches(HALVES[0], x) || Matches(HALVES[1], x);
  }
}
