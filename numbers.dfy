/** Numbers as the source reads, rounds and prints them. Rust's `f64` is
    modelled by `real`: parsing gives the exact decimal value, rounding is
    exact, and binary floating-point error is not modelled. */
module Numbers {
  import opened Base
  import opened Text

  const U32_MAX: nat := 4294967295

  function Pow10(n: nat): (r: nat)
    ensures r >= 1
  {
    if n == 0 then 1 else 10 * Pow10(n - 1)
  }

  function Abs(x: real): real {
    if x < 0.0 then -x else x
  }

  /** The mantissa of a float literal: `Digit* [. Digit*]` with at least one digit. */
  function ParseMantissa(m: string): Option<real> {
    var dot := FirstMatch(m, OnChar('.'));
    if dot == |m| then
      if |m| > 0 && AllDigits(m) then Some(ParseDigits(m) as real) else None
    else
      var ip, fp := m[..dot], m[dot + 1..];
      if AllDigits(ip) && AllDigits(fp) && |ip| + |fp| > 0 then Some(DecimalValue(ip, fp))
      else None
  }

  /** The value of the decimal numeral `ip.fp`. */
  function DecimalValue(ip: string, fp: string): real
    requires AllDigits(ip) && AllDigits(fp)
  {
    ParseDigits(ip) as real + ParseDigits(fp) as real / Pow10(|fp|) as real
  }

  /** The exponent of a float literal: `[+|-] Digit+`. */
  function ParseExponent(x: string): Option<int> {
    var neg := |x| > 0 && x[0] == '-';
    var digits := if |x| > 0 && (x[0] == '+' || x[0] == '-') then x[1..] else x;
    if |digits| > 0 && AllDigits(digits) then
      Some(if neg then -(ParseDigits(digits) as int) else ParseDigits(digits))
    else None
  }

  function Scale10(v: real, e: int): real {
    if e >= 0 then v * Pow10(e) as real else v / Pow10(-e) as real
  }

  /** A literal without its sign: `mantissa [(e|E) exponent]`. */
  function ParseUnsigned(body: string): Option<real> {
    var e := FirstMatch(body, OnExponentMark);
    if e == |body| then ParseMantissa(body)
    else match (ParseMantissa(body[..e]), ParseExponent(body[e + 1..]))
      case (Some(v), Some(x)) => Some(Scale10(v, x))
      case _ => None
  }

  /** `str::parse::<f64>` on finite decimal literals
      (`[+|-] mantissa [(e|E) exponent]`). The text must be exactly a
      literal: surrounding whitespace is refused, as in Rust. */
  function ParseF64(s: string): Option<real> {
    if |s| > 0 && (s[0] == '+' || s[0] == '-') then
      match ParseUnsigned(s[1..])
      case None => None
      case Some(v) => Some(if s[0] == '-' then -v else v)
    else ParseUnsigned(s)
  }

  /** A digit string is a literal without exponent or point. */
  lemma ParseUnsignedDigits(t: string)
    requires |t| > 0 && AllDigits(t)
    ensures ParseUnsigned(t) == Some(ParseDigits(t) as real)
  {
    assert NoMatch(t, OnExponentMark);
    assert NoMatch(t, OnChar('.'));
  }

  /** A leading minus negates the literal that follows it. */
  lemma ParseNegative(b: string)
    ensures ParseF64("-" + b) == if ParseUnsigned(b).Some? then Some(-ParseUnsigned(b).value) else None
  {
    var u := "-" + b;
    assert u[0] == '-' && u[1..] == b;
  }

  /** A digit string parses as the number it denotes. */
  lemma ParseDigitText(t: string)
    requires |t| > 0 && AllDigits(t)
    ensures ParseF64(t) == Some(ParseDigits(t) as real)
  {
    ParseUnsignedDigits(t);
    assert IsDigit(t[0]);
  }

  /** The decimal text of a natural number parses back to that number. */
  lemma ParseNatText(n: nat)
    ensures ParseF64(NatToString(n)) == Some(n as real)
    ensures ParseF64("-" + NatToString(n)) == Some(-(n as real))
  {
    var t := NatToString(n);
    ParseDigitText(t);
    ParseUnsignedDigits(t);
    ParseNegative(t);
  }

  /** `f64::round`: to the nearest integer, ties away from zero. */
  function RoundHalfAway(x: real): (r: int)
    ensures x - 0.5 <= r as real <= x + 0.5
    ensures r as real - x == 0.5 ==> x >= 0.0
    ensures x - r as real == 0.5 ==> x < 0.0
  {
    if x >= 0.0 then (x + 0.5).Floor else -((-x + 0.5).Floor)
  }

  /** The rounding of Rust's fixed-precision formatting: to the nearest
      integer, ties to the even one. */
  function RoundHalfEven(x: real): (r: int)
    ensures x - 0.5 <= r as real <= x + 0.5
    ensures r as real - x == 0.5 || x - r as real == 0.5 ==> r % 2 == 0
  {
    var f := x.Floor;
    var frac := x - f as real;
    if frac < 0.5 then f
    else if frac > 0.5 then f + 1
    else if f % 2 == 0 then f
    else f + 1
  }

  function Sign(x: real): string {
    if x < 0.0 then "-" else ""
  }

  /** `format!("{:.0}", x)`. */
  function FormatFixed0(x: real): string {
    Sign(x) + NatToString(RoundHalfEven(Abs(x)) as nat)
  }

  /** `format!("{:.1}", x)`. */
  function FormatFixed1(x: real): string {
    Sign(x) + Tenths(RoundHalfEven(Abs(x) * 10.0) as nat)
  }

  /** `n` tenths written with one decimal place. */
  function Tenths(n: nat): string {
    NatToString(n / 10) + "." + [DigitChar(n % 10)]
  }

  /** The text `{:.0}` prints reads back as `x` to within one half. */
  lemma FormatFixed0Accurate(x: real)
    ensures ParseF64(FormatFixed0(x)).Some?
    ensures Abs(ParseF64(FormatFixed0(x)).value - x) <= 0.5
  {
    var k := RoundHalfEven(Abs(x)) as nat;
    ParseNatText(k);
    if x < 0.0 {
      assert FormatFixed0(x) == "-" + NatToString(k);
    } else {
      assert FormatFixed0(x) == NatToString(k);
    }
  }

  /** Without an exponent mark a literal is its mantissa. */
  lemma ParseUnsignedNoExponent(body: string)
    requires NoMatch(body, OnExponentMark)
    ensures ParseUnsigned(body) == ParseMantissa(body)
  {
    assert FirstMatch(body, OnExponentMark) == |body|;
  }

  /** A mantissa with a point: the digits before and after it. */
  lemma MantissaWithPoint(ip: string, fp: string)
    requires AllDigits(ip) && AllDigits(fp) && |ip| > 0
    ensures ParseMantissa(ip + "." + fp) == Some(DecimalValue(ip, fp))
  {
    var m := ip + "." + fp;
    assert NoMatch(ip, OnChar('.'));
    FirstMatchAfterPiece(ip, '.', fp, OnChar('.'));
    var dot := FirstMatch(m, OnChar('.'));
    assert dot == |ip| < |m|;
    assert m[..dot] == ip;
    assert m[dot + 1..] == fp;
    assert AllDigits(m[..dot]) && AllDigits(m[dot + 1..]);
  }

  /** `ip.fp` with digit strings on both sides denotes `ip + fp / 10^|fp|`. */
  lemma ParseUnsignedPoint(ip: string, fp: string)
    requires |ip| > 0 && AllDigits(ip) && AllDigits(fp)
    ensures ParseUnsigned(ip + "." + fp) == Some(DecimalValue(ip, fp))
  {
    var body := ip + "." + fp;
    assert NoMatch(body, OnExponentMark) by {
      forall j | 0 <= j < |body| ensures !OnExponentMark.Matches(body[j]) {
        if j < |ip| { assert body[j] == ip[j]; }
        else if j > |ip| { assert body[j] == fp[j - |ip| - 1]; }
      }
    }
    ParseUnsignedNoExponent(body);
    MantissaWithPoint(ip, fp);
  }

  /** A decimal numeral `ip.fp`, with or without a leading minus. */
  lemma ParseDecimal(ip: string, fp: string)
    requires |ip| > 0 && AllDigits(ip) && AllDigits(fp)
    ensures ParseF64(ip + "." + fp) == Some(DecimalValue(ip, fp))
    ensures ParseF64("-" + (ip + "." + fp)) == Some(-DecimalValue(ip, fp))
  {
    var body := ip + "." + fp;
    ParseUnsignedPoint(ip, fp);
    assert body[0] == ip[0] && IsDigit(body[0]);
    ParseNegative(body);
  }

  /** A literal with a point at position `dot` and digits on both sides. */
  lemma ParseDecimalAt(x: string, dot: nat)
    requires 0 < dot < |x| && x[dot] == '.' && AllDigits(x[..dot]) && AllDigits(x[dot + 1..])
    ensures ParseF64(x) == Some(DecimalValue(x[..dot], x[dot + 1..]))
  {
    ParseDecimal(x[..dot], x[dot + 1..]);
    assert x == x[..dot] + "." + x[dot + 1..];
  }

  /** The text `{:.1}` prints reads back as `x` to within one twentieth. */
  lemma FormatFixed1Accurate(x: real)
    ensures ParseF64(FormatFixed1(x)).Some?
    ensures Abs(ParseF64(FormatFixed1(x)).value - x) <= 0.05
  {
    var n := RoundHalfEven(Abs(x) * 10.0) as nat;
    var body := Tenths(n);
    TenthsBody(n);
    TenthsClose(Abs(x), n);
    if x < 0.0 {
      ParseNegative(body);
    } else {
      assert FormatFixed1(x) == body;
    }
  }

  lemma TenthsClose(a: real, n: nat)
    requires a >= 0.0 && n == RoundHalfEven(a * 10.0)
    ensures a - 0.05 <= n as real / 10.0 <= a + 0.05
  {
  }

  /** The unsigned part of `{:.1}` for `n` tenths reads back as `n / 10`. */
  lemma TenthsBody(n: nat)
    ensures ParseUnsigned(Tenths(n)) == Some(n as real / 10.0) && IsDigit(Tenths(n)[0])
  {
    var ip := NatToString(n / 10);
    var fp := [DigitChar(n % 10)];
    assert ParseDigits(fp) == n % 10 by {
      assert fp[..|fp| - 1] == "";
    }
    assert Pow10(1) == 10;
    ParseUnsignedPoint(ip, fp);
    assert DecimalValue(ip, fp) == (n / 10) as real + (n % 10) as real / 10.0;
  }

  /** `x.round().max(1.0) as u32` for a finite `x`: the cast saturates. */
  function PixelCount(x: real): (n: nat)
    ensures 1 <= n <= U32_MAX
    ensures 0.5 <= x < U32_MAX as real + 0.5 ==> x - 0.5 <= n as real <= x + 0.5
    ensures x < 0.5 ==> n == 1
    ensures x >= U32_MAX as real + 0.5 ==> n == U32_MAX
  {
    var r := RoundHalfAway(x);
    if r < 1 then 1 else if r > U32_MAX then U32_MAX else r
  }
}
