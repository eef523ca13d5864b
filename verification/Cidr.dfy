/** IPv4 networks as netgate's outbound rules spell and compare them
    (backend/internal/netgate/config.go, and Go's net package under it). */
module Cidr {
  import opened Options
  import opened Numerals
  import opened Powers

  const ADDRESSES: int := 0x1_0000_0000

  /** net.IPNet for IPv4: `base` has the host bits masked off already. */
  datatype Net = Net(base: int, ones: int)

  /** x with its lowest `bits` bits cleared. */
  function Clear(x: int, bits: nat): int
    decreases bits
  {
    if bits == 0 then x else 2 * Clear(x / 2, bits - 1)
  }

  /** IP.Mask with CIDRMask(ones, 32). */
  function Mask(ip: int, ones: int): int
    requires 0 <= ones <= 32
  {
    Clear(ip, 32 - ones)
  }

  predicate Valid(n: Net) {
    0 <= n.ones <= 32 && 0 <= n.base < ADDRESSES && Mask(n.base, n.ones) == n.base
  }

  /** IPNet.Contains: equal after masking. */
  predicate Contains(n: Net, x: int)
    requires Valid(n)
  {
    Mask(x, n.ones) == n.base
  }

  predicate Covers(outer: Net, inner: Net)
    requires Valid(outer) && Valid(inner)
  {
    outer.ones <= inner.ones && Contains(outer, inner.base)
  }

  predicate Overlaps(a: Net, b: Net)
    requires Valid(a) && Valid(b)
  {
    Contains(a, b.base) || Contains(b, a.base)
  }

  // ------------------------------------------------------------- spellings

  /** One field of a dotted quad: no leading zero, at most 255. */
  function ParseOctet(s: string): (r: Option<int>)
    ensures r.Some? ==> 0 <= r.value <= 255 && AllDigits(s) && s != ""
  {
    if s == "" || |s| > 3 || !AllDigits(s) || (|s| > 1 && s[0] == '0') || Value(s) > 255 then None
    else Some(Value(s))
  }

  /** The fields of a dotted quad from the last `fields` of them on, after `high`. */
  function ParseFields(s: string, fields: nat, high: int): Option<int>
    requires fields > 0
    decreases fields
  {
    if fields == 1 then
      match ParseOctet(s)
      case None => None
      case Some(octet) => Some(high * 256 + octet)
    else
      match Cut(s, '.')
      case None => None
      case Some((first, rest)) =>
        match ParseOctet(first)
        case None => None
        case Some(octet) => ParseFields(rest, fields - 1, high * 256 + octet)
  }

  /** net.ParseIP of a dotted quad. */
  function ParseAddress(s: string): (r: Option<int>)
    ensures r.Some? ==> 0 <= r.value < ADDRESSES
  {
    FieldsInRange(s, 4, 0);
    ParseFields(s, 4, 0)
  }

  lemma {:induction false} FieldsInRange(s: string, fields: nat, high: int)
    requires 0 < fields <= 4 && 0 <= high < Pow2(32 - 8 * fields)
    ensures ParseFields(s, fields, high).Some? ==> 0 <= ParseFields(s, fields, high).value < ADDRESSES
    decreases fields
  {
    BytePowers();
    if fields > 1 && Cut(s, '.').Some? && ParseOctet(Cut(s, '.').value.0).Some? {
      var (first, rest) := Cut(s, '.').value;
      FieldsInRange(rest, fields - 1, high * 256 + ParseOctet(first).value);
    }
  }

  /** The number of a prefix length. */
  function ParseOnes(s: string): (r: Option<int>)
    ensures r.Some? ==> 0 <= r.value <= 32
  {
    if s == "" || !AllDigits(s) || Value(s) > 32 then None else Some(Value(s))
  }

  /** ruleNet, for text without a colon. */
  function RuleNet(cidr: string): (r: Option<Net>)
    ensures r.Some? ==> Valid(r.value)
  {
    match Cut(cidr, '/')
    case Some((address, mask)) =>
      (match (ParseAddress(address), ParseOnes(mask))
       case (Some(ip), Some(ones)) => ClearedOnce(ip, 32 - ones); Some(Net(Mask(ip, ones), ones))
       case _ => None)
    case None =>
      match ParseAddress(cidr)
      case Some(ip) => Some(Net(ip, 32))
      case None => None
  }

  // ----------------------------------------------------------- set semantics

  lemma BytePowers()
    ensures Pow2(0) == 1 && Pow2(8) == 0x100 && Pow2(16) == 0x1_0000 && Pow2(24) == 0x100_0000
    ensures Pow2(32) == ADDRESSES
  {
  }

  lemma {:induction false} ClearedOnce(x: int, bits: nat)
    ensures Clear(Clear(x, bits), bits) == Clear(x, bits)
    ensures x >= 0 ==> 0 <= Clear(x, bits) <= x
    decreases bits
  {
    if bits > 0 {
      ClearedOnce(x / 2, bits - 1);
      assert Clear(x, bits) / 2 == Clear(x / 2, bits - 1);
    }
  }

  /** Nothing to clear: a multiple of 2^bits. */
  lemma {:induction false} ClearMultiple(k: int, bits: nat)
    ensures Clear(k * Pow2(bits), bits) == k * Pow2(bits)
  {
    if bits > 0 {
      var half := k * Pow2(bits - 1);
      assert k * Pow2(bits) == 2 * half by {
        assert Pow2(bits) == 2 * Pow2(bits - 1);
      }
      ClearMultiple(k, bits - 1);
      assert 2 * half / 2 == half;
    }
  }

  lemma {:induction false} ClearIsInterval(b: int, x: int, bits: nat)
    requires Clear(b, bits) == b
    ensures Clear(x, bits) == b <==> b <= x < b + Pow2(bits)
    decreases bits
  {
    if bits > 0 {
      assert b == 2 * Clear(b / 2, bits - 1);
      assert Clear(x, bits) == 2 * Clear(x / 2, bits - 1);
      ClearIsInterval(b / 2, x / 2, bits - 1);
    }
  }

  lemma {:induction false} ClearMore(x: int, y: int, few: nat, bits: nat)
    requires few <= bits && Clear(x, few) == Clear(y, few)
    ensures Clear(x, bits) == Clear(y, bits)
    decreases bits
  {
    if few > 0 {
      assert Clear(x, few) == 2 * Clear(x / 2, few - 1) && Clear(y, few) == 2 * Clear(y / 2, few - 1);
      assert Clear(x, bits) == 2 * Clear(x / 2, bits - 1) && Clear(y, bits) == 2 * Clear(y / 2, bits - 1);
      ClearMore(x / 2, y / 2, few - 1, bits - 1);
    }
  }

  function Size(ones: int): nat
    requires 0 <= ones <= 32
  {
    Pow2(32 - ones)
  }

  /** A network is the interval of Size(ones) addresses from its base. */
  lemma IsInterval(n: Net, x: int)
    requires Valid(n)
    ensures Contains(n, x) <==> n.base <= x < n.base + Size(n.ones)
  {
    ClearIsInterval(n.base, x, 32 - n.ones);
  }

  lemma HasItsBase(n: Net)
    requires Valid(n)
    ensures Contains(n, n.base)
  {
  }

  lemma {:induction false} HalvesAreClear(b: int, bits: nat)
    requires bits > 0 && Clear(b, bits) == b
    ensures Clear(b, bits - 1) == b && Clear(b + Pow2(bits - 1), bits - 1) == b + Pow2(bits - 1)
    decreases bits
  {
    if bits > 1 {
      assert b == 2 * Clear(b / 2, bits - 1);
      HalvesAreClear(b / 2, bits - 1);
      assert (b + Pow2(bits - 1)) / 2 == b / 2 + Pow2(bits - 2);
    }
  }

  lemma {:induction false} FitsBelow(b: int, bits: nat, all: nat)
    requires bits <= all && Clear(b, bits) == b && b < Pow2(all)
    ensures b + Pow2(bits) <= Pow2(all)
    decreases bits
  {
    if bits > 0 {
      assert b == 2 * Clear(b / 2, bits - 1);
      FitsBelow(b / 2, bits - 1, all - 1);
    }
  }

  function LowerHalf(n: Net): (half: Net)
    requires Valid(n) && n.ones < 32
    ensures Valid(half)
  {
    HalvesAreClear(n.base, 32 - n.ones);
    Net(n.base, n.ones + 1)
  }

  function UpperHalf(n: Net): (half: Net)
    requires Valid(n) && n.ones < 32
    ensures Valid(half)
  {
    HalvesAreClear(n.base, 32 - n.ones);
    BytePowers();
    FitsBelow(n.base, 32 - n.ones, 32);
    Net(n.base + Size(n.ones + 1), n.ones + 1)
  }

  lemma HalvesMakeTheWhole(n: Net, x: int)
    requires Valid(n) && n.ones < 32
    ensures Contains(n, x) <==> Contains(LowerHalf(n), x) || Contains(UpperHalf(n), x)
  {
    IsInterval(n, x);
    IsInterval(LowerHalf(n), x);
    IsInterval(UpperHalf(n), x);
    hide Contains;
  }

  /** Any two networks are nested or disjoint: the one with the shorter prefix holds
      all of the other or nothing of it. */
  lemma NestedOrDisjoint(a: Net, b: Net, x: int, y: int)
    requires Valid(a) && Valid(b) && a.ones <= b.ones
    requires Contains(b, x) && Contains(b, y)
    ensures Contains(a, x) <==> Contains(a, y)
  {
    ClearMore(x, y, 32 - b.ones, 32 - a.ones);
  }

  /** covers is inclusion: every address of inner is one of outer. */
  lemma CoversIsInclusion(outer: Net, inner: Net)
    requires Valid(outer) && Valid(inner)
    ensures Covers(outer, inner) <==> forall x :: Contains(inner, x) ==> Contains(outer, x)
  {
    if Covers(outer, inner) {
      forall x | Contains(inner, x) ensures Contains(outer, x) {
        NestedOrDisjoint(outer, inner, inner.base, x);
      }
    } else if outer.ones > inner.ones {
      // inner is bigger than outer, so its ends cannot both be inside
      PowGrows(32 - outer.ones, 32 - inner.ones);
      var last := inner.base + Size(inner.ones) - 1;
      IsInterval(inner, last);
      IsInterval(outer, last);
      IsInterval(outer, inner.base);
      assert Contains(inner, last) && Contains(inner, inner.base);
    } else {
      assert Contains(inner, inner.base);
    }
  }

  /** overlaps is nonempty intersection. */
  lemma OverlapsIsIntersection(a: Net, b: Net)
    requires Valid(a) && Valid(b)
    ensures Overlaps(a, b) <==> exists x :: Contains(a, x) && Contains(b, x)
  {
    assert Contains(a, a.base) && Contains(b, b.base);
    if x :| Contains(a, x) && Contains(b, x) {
      if a.ones <= b.ones {
        NestedOrDisjoint(a, b, x, b.base);
      } else {
        NestedOrDisjoint(b, a, x, a.base);
      }
    }
  }

  // ------------------------------------------------------- the script's filter

  /** valid_cidr in the firewall script: nothing outside [0-9A-Fa-f:./]. */
  predicate ShellAdmits(s: string) {
    s != "" && forall i :: 0 <= i < |s| ==> ShellChar(s[i])
  }

  predicate ShellChar(c: char) {
    IsDigit(c) || 'A' <= c <= 'F' || 'a' <= c <= 'f' || c == ':' || c == '.' || c == '/'
  }

  lemma {:induction false} FieldsAdmitted(s: string, fields: nat, high: int)
    requires fields > 0 && ParseFields(s, fields, high).Some?
    ensures ShellAdmits(s) && ':' !in s
    decreases fields
  {
    if fields > 1 {
      CutJoins(s, '.');
      var (first, rest) := Cut(s, '.').value;
      FieldsAdmitted(rest, fields - 1, high * 256 + ParseOctet(first).value);
      assert s == first + ['.'] + rest;
    }
  }

  /** The script never skips a rule the backend parsed, nor takes it for IPv6. */
  lemma ParsedIsAdmitted(cidr: string)
    requires RuleNet(cidr).Some?
    ensures ShellAdmits(cidr) && ':' !in cidr
  {
    CutJoins(cidr, '/');
    match Cut(cidr, '/')
    case Some((address, mask)) =>
      FieldsAdmitted(address, 4, 0);
      assert cidr == address + ['/'] + mask;
    case None => FieldsAdmitted(cidr, 4, 0);
  }

  // ------------------------------------------------------- written-out networks

  function Spelled(a: string, b: string, c: string, d: string, mask: string): string {
    a + ['.'] + (b + ['.'] + (c + ['.'] + d)) + ['/'] + mask
  }

  lemma NoSlash(octet: string)
    requires ParseOctet(octet).Some?
    ensures '/' !in octet && '.' !in octet
  {
  }

  lemma FieldParses(first: string, rest: string, fields: nat, high: int)
    requires fields > 1 && ParseOctet(first).Some?
    ensures ParseFields(first + ['.'] + rest, fields, high) == ParseFields(rest, fields - 1, high * 256 + ParseOctet(first).value)
  {
    NoSlash(first);
    hide ParseOctet;
    CutJoined(first, '.', rest);
  }

  /** A written-out CIDR with its four octets. */
  lemma QuadParses(a: string, b: string, c: string, d: string, mask: string)
    requires ParseOctet(a).Some? && ParseOctet(b).Some? && ParseOctet(c).Some? && ParseOctet(d).Some?
    requires ParseOnes(mask).Some?
    ensures var ip := ((ParseOctet(a).value * 256 + ParseOctet(b).value) * 256 + ParseOctet(c).value) * 256 + ParseOctet(d).value;
      RuleNet(Spelled(a, b, c, d, mask)) == Some(Net(Mask(ip, ParseOnes(mask).value), ParseOnes(mask).value))
  {
    var x, y, z := ParseOctet(a).value, ParseOctet(b).value, ParseOctet(c).value;
    NoSlash(a);
    NoSlash(b);
    NoSlash(c);
    NoSlash(d);
    assert ParseFields(d, 1, (x * 256 + y) * 256 + z) == Some(((x * 256 + y) * 256 + z) * 256 + ParseOctet(d).value);
    hide ParseOctet, ParseOnes, ParseFields, Mask;
    var s3 := c + ['.'] + d;
    var s2 := b + ['.'] + s3;
    FieldParses(a, s2, 4, 0);
    FieldParses(b, s3, 3, x);
    FieldParses(c, d, 2, x * 256 + y);
    CutJoined(a + ['.'] + s2, '/', mask);
  }
}
