/** The payload of an unlock token as text (backend/internal/authgate/gate.go):
    two decimal Unix times joined by a colon. Base64 and the signature around it are
    not part of this model. */
module TokenText {
  import opened Session
  import opened Options
  import opened Numerals

  const INT64_MIN: int := -0x8000_0000_0000_0000
  const INT64_MAX: int := 0x7FFF_FFFF_FFFF_FFFF

  /** strconv.FormatInt in base ten. */
  function FormatInt(n: int): string {
    if n < 0 then "-" + Digits(-n) else Digits(n)
  }

  /** strconv.ParseInt in base ten and 64 bits. */
  function ParseInt(s: string): Option<int> {
    var neg := |s| > 0 && s[0] == '-';
    var digits := if |s| > 0 && (s[0] == '-' || s[0] == '+') then s[1..] else s;
    if digits == [] || !AllDigits(digits) then None
    else
      var n := if neg then 0 - Value(digits) as int else Value(digits);
      if INT64_MIN <= n <= INT64_MAX then Some(n) else None
  }

  function Payload(tok: Token): string {
    FormatInt(tok.origin) + ":" + FormatInt(tok.refreshed)
  }

  /** tokenTimes after the signature check; a payload without a colon is one timestamp for both. */
  function ParsePayload(payload: string): Option<Token> {
    var (o, r) := match Cut(payload, ':')
                  case Some((a, b)) => (a, b)
                  case None => (payload, payload);
    match (ParseInt(o), ParseInt(r))
    case (Some(origin), Some(refreshed)) => Some(Token(origin, refreshed))
    case _ => None
  }

  lemma FormatThenParse(n: int)
    requires INT64_MIN <= n <= INT64_MAX
    ensures ParseInt(FormatInt(n)) == Some(n)
  {
    var d := Digits(if n < 0 then -n else n);
    ValueOfDigits(if n < 0 then -n else n);
    if n < 0 {
      assert ("-" + d)[1..] == d;
    } else {
      assert IsDigit(d[0]);
    }
  }

  /** Reading back what mintToken wrote gives the same two times, for every pair of
      64-bit Unix times, and a payload of one time from an older build gives it twice. */
  lemma MintThenRead(tok: Token)
    requires INT64_MIN <= tok.origin <= INT64_MAX && INT64_MIN <= tok.refreshed <= INT64_MAX
    ensures ParsePayload(Payload(tok)) == Some(tok)
    ensures ParsePayload(FormatInt(tok.origin)) == Some(Token(tok.origin, tok.origin))
  {
    var o, r := FormatInt(tok.origin), FormatInt(tok.refreshed);
    assert ':' !in Digits(if tok.origin < 0 then -tok.origin else tok.origin);
    CutJoined(o, ':', r);
    FormatThenParse(tok.origin);
    FormatThenParse(tok.refreshed);
    NothingToCut(o, ':');
  }

  /** s is n in base ten, with an optional sign and any leading zeros, in 64 bits. */
  predicate Numeral(s: string, sign: string, digits: string, n: int) {
    && s == sign + digits && sign in {"", "+", "-"} && digits != "" && AllDigits(digits)
    && n == (if sign == "-" then 0 - Value(digits) as int else Value(digits))
    && INT64_MIN <= n <= INT64_MAX
  }

  ghost predicate IsNumeral(s: string, n: int) {
    exists sign, digits :: Numeral(s, sign, digits, n)
  }

  lemma ParseIntExactly(s: string, n: int)
    ensures ParseInt(s) == Some(n) <==> IsNumeral(s, n)
  {
    hide Value;
    if ParseInt(s) == Some(n) {
      if s[0] == '-' || s[0] == '+' {
        assert s == [s[0]] + s[1..];
        assert Numeral(s, [s[0]], s[1..], n);
      } else {
        assert "" + s == s;
        assert Numeral(s, "", s, n);
      }
    }
    if sign, digits :| Numeral(s, sign, digits, n) {
      if sign == "" {
        assert s == digits && IsDigit(s[0]);
      } else {
        assert s[1..] == digits;
      }
    }
  }

  lemma NumeralHasNoColon(s: string, n: int)
    requires IsNumeral(s, n)
    ensures ':' !in s
  {
    var sign, digits :| Numeral(s, sign, digits, n);
    assert ':' !in digits;
  }

  /** Exactly which payloads are read, whoever signed them, and as which times. */
  lemma ReadExactly(payload: string, tok: Token)
    ensures ParsePayload(payload) == Some(tok) <==>
      || (exists o, r :: payload == o + [':'] + r && IsNumeral(o, tok.origin) && IsNumeral(r, tok.refreshed))
      || (IsNumeral(payload, tok.origin) && tok.refreshed == tok.origin)
  {
    hide ParseInt, IsNumeral;
    CutJoins(payload, ':');
    if ParsePayload(payload) == Some(tok) {
      match Cut(payload, ':')
      case Some((o, r)) =>
        ParseIntExactly(o, tok.origin);
        ParseIntExactly(r, tok.refreshed);
      case None =>
        ParseIntExactly(payload, tok.origin);
    }
    if o, r :| payload == o + [':'] + r && IsNumeral(o, tok.origin) && IsNumeral(r, tok.refreshed) {
      NumeralHasNoColon(o, tok.origin);
      CutJoined(o, ':', r);
      ParseIntExactly(o, tok.origin);
      ParseIntExactly(r, tok.refreshed);
    }
    if IsNumeral(payload, tok.origin) && tok.refreshed == tok.origin {
      NumeralHasNoColon(payload, tok.origin);
      NothingToCut(payload, ':');
      ParseIntExactly(payload, tok.origin);
    }
  }
}
