/** Exactly which texts name which addresses, the ranges of the backstop as they are
    written, and what the firewall does with a new connection. */
module BackstopText {
  import opened Options
  import opened Powers
  import opened Numerals
  import opened Cidr
  import opened Backstop

  // ------------------------------------------------------------- dotted quads

  lemma {:induction false} DigitsOfValue(s: string)
    requires AllDigits(s) && s != "" && (|s| > 1 ==> s[0] != '0')
    ensures Digits(Value(s)) == s && (|s| > 1 ==> Value(s) >= 10)
  {
    var n, last := |s| - 1, s[|s| - 1];
    assert s == s[..n] + [last];
    if n > 0 {
      DigitsOfValue(s[..n]);
      assert Value(s[..n]) > 0 by {
        if n == 1 {
          assert s[..1][..0] == [];
        }
      }
      assert Value(s) / 10 == Value(s[..n]) && Value(s) % 10 == last as int - '0' as int;
    } else {
      assert s[..0] == [];
    }
  }

  lemma {:induction false} DigitsHaveNoZero(n: nat)
    ensures |Digits(n)| > 1 ==> Digits(n)[0] != '0'
    ensures n < 1000 ==> |Digits(n)| <= 3
  {
    if n >= 10 {
      DigitsHaveNoZero(n / 10);
      if n / 10 < 10 {
        assert Digits(n)[0] == Digits(n / 10)[0];
        assert Digits(n / 10) == [('0' as int + n / 10 % 10) as char];
      } else {
        assert |Digits(n / 10)| > 1;
        if n < 1000 {
          assert n / 10 / 10 < 10;
          assert |Digits(n / 10 / 10)| == 1;
          assert |Digits(n / 10)| == 2;
        }
      }
    }
  }

  /** A field is a number up to 255 in its only spelling. */
  lemma OctetExactly(s: string, n: int)
    ensures ParseOctet(s) == Some(n) <==> 0 <= n <= 255 && s == Digits(n)
  {
    if 0 <= n <= 255 && s == Digits(n) {
      DigitsHaveNoZero(n);
      ValueOfDigits(n);
    }
    if ParseOctet(s) == Some(n) {
      DigitsOfValue(s);
    }
  }

  predicate Octets(o: seq<int>) {
    forall i :: 0 <= i < |o| ==> 0 <= o[i] <= 255
  }

  /** Numbers in decimal, with dots between them. */
  function Dotted(o: seq<int>): string
    requires Octets(o)
  {
    if o == [] then ""
    else if |o| == 1 then Digits(o[0])
    else Digits(o[0]) + ['.'] + Dotted(o[1..])
  }

  function Number(high: int, o: seq<int>): int
    decreases |o|
  {
    if o == [] then high else Number(high * 256 + o[0], o[1..])
  }

  /** o spells s, and stands for ip behind the digits before it. */
  predicate Spells(s: string, fields: nat, high: int, ip: int, o: seq<int>) {
    |o| == fields && Octets(o) && s == Dotted(o) && ip == Number(high, o)
  }

  lemma {:induction false} FieldsExactly(s: string, fields: nat, high: int, ip: int)
    requires fields > 0
    ensures ParseFields(s, fields, high) == Some(ip) <==> exists o :: Spells(s, fields, high, ip, o)
    decreases fields
  {
    hide ParseOctet, Digits;
    if fields == 1 {
      OneField(s, high, ip);
    } else {
      if ParseFields(s, fields, high) == Some(ip) {
        CutJoins(s, '.');
        var (first, rest) := Cut(s, '.').value;
        var n := ParseOctet(first).value;
        OctetExactly(first, n);
        FieldsExactly(rest, fields - 1, high * 256 + n, ip);
        var o: seq<int> :| Spells(rest, fields - 1, high * 256 + n, ip, o);
        assert ([n] + o)[1..] == o;
        assert Spells(s, fields, high, ip, [n] + o);
      }
      if o: seq<int> :| Spells(s, fields, high, ip, o) {
        OctetExactly(Digits(o[0]), o[0]);
        FieldParses(Digits(o[0]), Dotted(o[1..]), fields, high);
        assert Spells(Dotted(o[1..]), fields - 1, high * 256 + o[0], ip, o[1..]);
        FieldsExactly(Dotted(o[1..]), fields - 1, high * 256 + o[0], ip);
      }
    }
  }

  lemma OneField(s: string, high: int, ip: int)
    ensures ParseFields(s, 1, high) == Some(ip) <==> exists o :: Spells(s, 1, high, ip, o)
  {
    if ParseFields(s, 1, high) == Some(ip) {
      var n := ParseOctet(s).value;
      OctetExactly(s, n);
      assert [n][1..] == [];
      assert Spells(s, 1, high, ip, [n]);
    }
    if o: seq<int> :| Spells(s, 1, high, ip, o) {
      OctetExactly(s, o[0]);
      assert o[1..] == [];
      assert Number(high, o) == Number(high * 256 + o[0], o[1..]);
    }
  }

  /** s is a dotted quad, every field in its only spelling, and ip its address. */
  predicate Quad(s: string, ip: int, a: int, b: int, c: int, d: int) {
    && 0 <= a <= 255 && 0 <= b <= 255 && 0 <= c <= 255 && 0 <= d <= 255
    && s == Digits(a) + ['.'] + (Digits(b) + ['.'] + (Digits(c) + ['.'] + Digits(d)))
    && ip == a * 0x100_0000 + b * 0x1_0000 + c * 0x100 + d
  }

  ghost predicate Names(s: string, ip: int) {
    exists a, b, c, d :: Quad(s, ip, a, b, c, d)
  }

  lemma SpelledOut(s: string, ip: int, o: seq<int>)
    requires |o| == 4 && Octets(o)
    ensures Spells(s, 4, 0, ip, o) <==> Quad(s, ip, o[0], o[1], o[2], o[3])
  {
    hide Digits;
    assert o[1..][1..] == o[2..] && o[2..][1..] == o[3..] && o[3..][1..] == [];
    assert Dotted(o[3..]) == Digits(o[3]);
    assert Dotted(o[2..]) == Digits(o[2]) + ['.'] + Dotted(o[3..]);
    assert Dotted(o[1..]) == Digits(o[1]) + ['.'] + Dotted(o[2..]);
    assert Number(0, o) == Number(o[0], o[1..]) == Number(o[0] * 256 + o[1], o[2..]);
    assert Number(o[0] * 256 + o[1], o[2..]) == Number((o[0] * 256 + o[1]) * 256 + o[2], o[3..]);
    var ip4 := ((o[0] * 256 + o[1]) * 256 + o[2]) * 256 + o[3];
    assert Number((o[0] * 256 + o[1]) * 256 + o[2], o[3..]) == Number(ip4, []) == ip4;
    assert Dotted(o) == Digits(o[0]) + ['.'] + Dotted(o[1..]);
  }

  /** Exactly the dotted quads are read as addresses, each as the one it spells. */
  lemma AddressExactly(s: string, ip: int)
    ensures ParseAddress(s) == Some(ip) <==> Names(s, ip)
  {
    FieldsExactly(s, 4, 0, ip);
    hide ParseFields, Quad;
    if ParseAddress(s) == Some(ip) {
      var o: seq<int> :| Spells(s, 4, 0, ip, o);
      SpelledOut(s, ip, o);
    }
    if Names(s, ip) {
      var a, b, c, d :| Quad(s, ip, a, b, c, d);
      QuadIsSpelled(s, ip, a, b, c, d);
    }
  }

  lemma QuadIsSpelled(s: string, ip: int, a: int, b: int, c: int, d: int)
    requires Quad(s, ip, a, b, c, d)
    ensures Spells(s, 4, 0, ip, [a, b, c, d])
  {
    SpelledOut(s, ip, [a, b, c, d]);
  }

  lemma NamesHasNoSlash(s: string, ip: int)
    requires Names(s, ip)
    ensures '/' !in s
  {
    hide Digits;
  }

  /** A mask length: digits of a number up to 32, leading zeros allowed. */
  predicate IsLength(s: string, ones: int) {
    s != "" && AllDigits(s) && Value(s) == ones <= 32
  }

  /** s is an address with a mask length. */
  predicate Ranged(cidr: string, address: string, mask: string, ones: int) {
    cidr == address + ['/'] + mask && IsLength(mask, ones)
  }

  /** Exactly which texts a rule may have, IPv6 aside, and what they name: an address
      alone, or the network of a mask length that holds the address given. */
  lemma RuleNetExactly(cidr: string, n: Net)
    ensures RuleNet(cidr) == Some(n) <==>
      || (n.ones == 32 && Names(cidr, n.base))
      || (Valid(n) && exists address, mask, ip ::
            Ranged(cidr, address, mask, n.ones) && Names(address, ip) && Contains(n, ip))
  {
    hide Names, ParseAddress, Clear;
    CutJoins(cidr, '/');
    if RuleNet(cidr) == Some(n) {
      match Cut(cidr, '/')
      case None => AddressExactly(cidr, n.base);
      case Some((address, mask)) =>
        var ip := ParseAddress(address).value;
        AddressExactly(address, ip);
        assert Ranged(cidr, address, mask, n.ones);
    }
    if n.ones == 32 && Names(cidr, n.base) {
      NamesHasNoSlash(cidr, n.base);
      AddressExactly(cidr, n.base);
    }
    if Valid(n) {
      if address, mask, ip :| Ranged(cidr, address, mask, n.ones) && Names(address, ip) && Contains(n, ip) {
        NamesHasNoSlash(address, ip);
        AddressExactly(address, ip);
        CutJoined(address, '/', mask);
      }
    }
  }

  // ------------------------------------------------------- the ranges as written

  lemma RangeNumerals()
    ensures Digits(0) == "0" && Digits(10) == "10" && Digits(16) == "16" && Digits(127) == "127"
    ensures Digits(168) == "168" && Digits(169) == "169" && Digits(172) == "172" && Digits(192) == "192" && Digits(254) == "254"
  {
    assert Digits(1) == "1" && Digits(2) == "2";
    assert Digits(12) == Digits(1) + "2" && Digits(16) == Digits(1) + "6" && Digits(17) == Digits(1) + "7";
    assert Digits(19) == Digits(1) + "9" && Digits(25) == Digits(2) + "5" && Digits(10) == Digits(1) + "0";
  }

  lemma LengthNumerals()
    ensures IsLength("8", 8) && IsLength("12", 12) && IsLength("16", 16)
  {
    assert "12"[..1] == "1" && "16"[..1] == "1" && "1"[..0] == "" && "8"[..0] == "";
    assert Value("1") == 1;
  }

  /** The range a dotted quad with a mask length names, if its host bits are clear. */
  predicate Written(n: Net, a: int, b: int, mask: string) {
    && 0 <= a <= 255 && 0 <= b <= 255 && Valid(n)
    && RuleNet(Digits(a) + ['.'] + (Digits(b) + ['.'] + ("0" + ['.'] + "0")) + ['/'] + mask) == Some(n)
  }

  lemma IsWritten(n: Net, a: int, b: int, mask: string)
    requires 0 <= a <= 255 && 0 <= b <= 255 && Valid(n) && n.base == a * 0x100_0000 + b * 0x1_0000
    requires IsLength(mask, n.ones)
    ensures Written(n, a, b, mask)
  {
    RangeNumerals();
    hide Digits, RuleNet, Clear;
    var address := Digits(a) + ['.'] + (Digits(b) + ['.'] + ("0" + ['.'] + "0"));
    assert Quad(address, n.base, a, b, 0, 0);
    assert Ranged(address + ['/'] + mask, address, mask, n.ones);
    assert Names(address, n.base) && Contains(n, n.base);
    RuleNetExactly(address + ['/'] + mask, n);
  }

  /** The private ranges are 10.0.0.0/8, 172.16.0.0/12 and 192.168.0.0/16, the fixed ones
      127.0.0.0/8, 169.254.0.0/16 and 0.0.0.0/8, as the same parser reads them. */
  lemma RangesAreAsWritten()
    ensures |PRIVATE_V4| == 3 && |FIXED_BLOCK_V4| == 3
    ensures Written(PRIVATE_V4[0], 10, 0, "8") && Written(PRIVATE_V4[1], 172, 16, "12") && Written(PRIVATE_V4[2], 192, 168, "16")
    ensures Written(FIXED_BLOCK_V4[0], 127, 0, "8") && Written(FIXED_BLOCK_V4[1], 169, 254, "16")
    ensures Written(FIXED_BLOCK_V4[2], 0, 0, "8")
  {
    RangesAreValid();
    LengthNumerals();
    hide RuleNet, Clear, Valid, Written, IsLength;
    IsWritten(PRIVATE_V4[0], 10, 0, "8");
    IsWritten(PRIVATE_V4[1], 172, 16, "12");
    IsWritten(PRIVATE_V4[2], 192, 168, "16");
    IsWritten(FIXED_BLOCK_V4[0], 127, 0, "8");
    IsWritten(FIXED_BLOCK_V4[1], 169, 254, "16");
    IsWritten(FIXED_BLOCK_V4[2], 0, 0, "8");
  }

  // -------------------------------------------------------------- the firewall

  /** Loopback, link-local and "this network". */
  predicate Fixed(x: int) {
    0x7F00_0000 <= x < 0x8000_0000 || 0xA9FE_0000 <= x < 0xA9FF_0000 || 0 <= x < 0x100_0000
  }

  lemma FixedRanges(x: int)
    ensures Fixed(x) <==> exists f :: f in FIXED_BLOCK_V4 && Valid(f) && Contains(f, x)
  {
    RangesAreValid();
    BytePowers();
    IsInterval(FIXED_BLOCK_V4[0], x);
    IsInterval(FIXED_BLOCK_V4[1], x);
    IsInterval(FIXED_BLOCK_V4[2], x);
    hide Contains, Valid, Pow2;
    assert Fixed(x) ==> Contains(FIXED_BLOCK_V4[0], x) || Contains(FIXED_BLOCK_V4[1], x) || Contains(FIXED_BLOCK_V4[2], x);
  }

  /** Of a list whose rules are well formed, a new connection is dropped exactly if its
      address is a fixed one or the first rule that matches blocks, let through exactly if
      it is not and that rule allows, and otherwise left to what follows. */
  lemma FirewallExactly(rules: seq<OutboundRule>, v6: V6Syntax, x: int)
    requires forall r :: r in rules ==> Wellformed(r, v6)
    ensures Firewall(rules, x) == Accept <==> !Fixed(x) && exists k :: FirstMatchAt(rules, x, k) && rules[k].action == "allow"
    ensures Firewall(rules, x) == Drop <==> Fixed(x) || exists k :: FirstMatchAt(rules, x, k) && rules[k].action == "block"
    ensures Firewall(rules, x) == NoMatch <==> !Fixed(x) && forall r :: r in rules ==> !Matches(r, x)
  {
    FixedRanges(x);
    RangesAreValid();
    FirstMatchDecides(rules, v6, x);
    hide Matches, Outbound, Fixed, Contains, Valid, RuleNet;
    forall k | FirstMatchAt(rules, x, k) ensures rules[k] in rules && KnownAction(rules[k]) && Matches(rules[k], x) {
      assert Wellformed(rules[k], v6);
    }
    assert forall j, k :: FirstMatchAt(rules, x, j) && FirstMatchAt(rules, x, k) ==> j == k;
  }
}
