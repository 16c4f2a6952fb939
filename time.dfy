/** `get_hhmmss` (bicit/src/time.rs): a duration in whole seconds split into
    hours, minutes and seconds with Rust's truncating `/` and `%` on `i64`,
    and printed as three `{:02}` fields separated by ':'. */
module Hhmmss {
  import opened Base
  import opened Text

  /** Rust's `/ 60` on `i64`: the quotient truncated toward zero. */
  function TruncDiv60(a: int): (q: int)
    ensures a >= 0 ==> 0 <= 60 * q <= a < 60 * q + 60
    ensures a < 0 ==> 60 * q - 60 < a <= 60 * q <= 0
  {
    if a >= 0 then a / 60 else -((-a) / 60)
  }

  /** Rust's `% 60` on `i64`: the remainder takes the sign of the dividend. */
  function TruncRem60(a: int): (r: int)
    ensures a == 60 * TruncDiv60(a) + r
    ensures a >= 0 ==> 0 <= r < 60
    ensures a < 0 ==> -60 < r <= 0
  {
    a - 60 * TruncDiv60(a)
  }

  datatype Hms = Hms(hours: int, minutes: int, seconds: int)

  /** The three fields `get_hhmmss` computes from `totsec`. */
  function Decompose(totsec: int): Hms {
    var minutesTotal := TruncDiv60(totsec);
    Hms(TruncDiv60(minutesTotal), TruncRem60(minutesTotal), TruncRem60(totsec))
  }

  /** The fields add back up to the duration; for a non-negative duration the
      minutes and seconds are below 60 and the hours are unbounded. */
  lemma DecomposeExact(totsec: int)
    ensures var t := Decompose(totsec);
      t.hours * 3600 + t.minutes * 60 + t.seconds == totsec
    ensures totsec >= 0 ==> var t := Decompose(totsec);
      0 <= t.seconds < 60 && 0 <= t.minutes < 60 && t.hours >= 0
    ensures totsec < 0 ==> var t := Decompose(totsec);
      -60 < t.seconds <= 0 && -60 < t.minutes <= 0 && t.hours <= 0
  {
    var t := Decompose(totsec);
    var q := TruncDiv60(totsec);
    assert 60 * q + t.seconds == totsec;
    assert 60 * t.hours + t.minutes == q;
  }

  /** `format!("{:02}", n)`: at least two characters, zero-padded after the sign. */
  function Pad2(n: int): (r: string)
    ensures |r| >= 2
    ensures n >= 0 ==> AllDigits(r) && ParseDigits(r) == n
    ensures 0 <= n < 100 ==> |r| == 2
  {
    if n < 0 then "-" + NatToString(-n)
    else if n < 10 then
      LeadingZero(NatToString(n));
      "0" + NatToString(n)
    else
      assert NatToString(n) == NatToString(n / 10) + [DigitChar(n % 10)];
      assert n < 100 ==> NatToString(n / 10) == [DigitChar(n / 10)];
      NatToString(n)
  }

  /** `get_hhmmss`. */
  function GetHhmmss(totsec: int): string {
    var t := Decompose(totsec);
    Pad2(t.hours) + ":" + Pad2(t.minutes) + ":" + Pad2(t.seconds)
  }

  /** Reads `HH:MM:SS` text back into seconds: three ':'-separated digit fields. */
  function ParseHhmmss(text: string): Option<int> {
    var parts := Split(text, OnChar(':'));
    if |parts| == 3 && forall k :: 0 <= k < 3 ==> |parts[k]| > 0 && AllDigits(parts[k]) then
      Some(ParseDigits(parts[0]) * 3600 + ParseDigits(parts[1]) * 60 + ParseDigits(parts[2]))
    else None
  }

  /** Three digit fields joined by ':' split back into the same three fields. */
  lemma SplitThreeFields(a: string, b: string, c: string)
    requires AllDigits(a) && AllDigits(b) && AllDigits(c)
    ensures Split(a + ":" + b + ":" + c, OnChar(':')) == [a, b, c]
  {
    var fields := [a, b, c];
    assert JoinWith(fields[2..], ":") == c;
    assert JoinWith(fields[1..], ":") == b + ":" + c;
    assert JoinWith(fields, ":") == a + ":" + (b + ":" + c);
    assert a + ":" + (b + ":" + c) == a + ":" + b + ":" + c;
    forall k | 0 <= k < 3 ensures NoMatch(fields[k], OnChar(':')) {
      assert AllDigits(fields[k]);
    }
    SplitJoin(fields, OnChar(':'), ':');
  }

  /** For a non-negative duration the text is three ':'-separated fields, each
      at least two digits, minutes and seconds exactly two, and it reads back
      as the same number of seconds. */
  lemma {:induction false} HhmmssRoundTrip(totsec: int)
    requires totsec >= 0
    ensures var parts := Split(GetHhmmss(totsec), OnChar(':'));
      |parts| == 3 && |parts[0]| >= 2 && |parts[1]| == 2 && |parts[2]| == 2
      && forall k :: 0 <= k < 3 ==> AllDigits(parts[k])
    ensures ParseHhmmss(GetHhmmss(totsec)) == Some(totsec)
  {
    DecomposeExact(totsec);
    var t := Decompose(totsec);
    var h, m, sec := Pad2(t.hours), Pad2(t.minutes), Pad2(t.seconds);
    SplitThreeFields(h, m, sec);
    var parts := Split(GetHhmmss(totsec), OnChar(':'));
    assert parts == [h, m, sec];
    assert ParseDigits(h) * 3600 + ParseDigits(m) * 60 + ParseDigits(sec) == totsec;
  }
}
