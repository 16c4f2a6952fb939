/** SVG lengths, the `viewBox`, pixel sizing of embedded images and the
    stroke colour of an inline style (bicit-cli/src/lib.rs). */
module Svg {
  import opened Base
  import opened Text
  import opened Numbers
  import opened Colors

  /** Pixels per unit, anchored at 96 px per inch as in section 5.2 of CSS
      Values and Units Level 3; a unitless length is in pixels. */
  function UnitFactor(unit: string): Option<real> {
    if unit == "" || unit == "px" then Some(1.0)
    else if unit == "mm" then Some(96.0 / 25.4)
    else if unit == "cm" then Some(96.0 / 2.54)
    else if unit == "in" then Some(96.0)
    else if unit == "pt" then Some(96.0 / 72.0)
    else None
  }

  /** `parse_svg_length_to_px`: the trimmed text is a run of digits, '.'
      and '-' read as a number, then a unit from the table. */
  function SvgLengthToPx(s: string): (r: Option<real>)
    ensures |Trim(s)| == 0 ==> r.None?
    ensures |Trim(s)| > 0 && !NumberChar.Has(Trim(s)[0]) ==> r.None?
    ensures r.Some? ==> UnitFactor(Trim(Trim(s)[RunLength(Trim(s), NumberChar)..])).Some?
  {
    var t := Trim(s);
    if |t| == 0 then None
    else
      var n := RunLength(t, NumberChar);
      if n == 0 then None else ScaledLength(t[..n], Trim(t[n..]))
  }

  /** A numeric part and a unit: the number in pixels, or `None` when the
      number does not parse or the unit is not in the table. */
  function ScaledLength(num: string, unit: string): Option<real> {
    Scaled(ParseF64(num), UnitFactor(unit))
  }

  /** A parsed number times a unit's factor, when both exist. */
  function Scaled(value: Option<real>, factor: Option<real>): Option<real> {
    match value
    case None => None
    case Some(v) =>
      match factor
      case None => None
      case Some(f) => Some(InPixels(v, f))
  }

  /** A number of units times the unit's pixels per unit. */
  function InPixels(units: real, factor: real): real {
    units * factor
  }

  /** `parse_svg_length_to_px`, scanning for the end of the numeric part. */
  method ParseSvgLengthToPx(s: string) returns (r: Option<real>)
    ensures r == SvgLengthToPx(s)
  {
    var t := Trim(s);
    if |t| == 0 {
      return None;
    }
    var splitAt := 0;
    var i := 0;
    while i < |t|
      invariant 0 <= i <= |t| && splitAt == i
      invariant forall j :: 0 <= j < i ==> NumberChar.Has(t[j])
    {
      if NumberChar.Has(t[i]) {
        splitAt := i + 1;
      } else {
        break;
      }
      i := i + 1;
    }
    RunLengthUnique(t, NumberChar, splitAt);
    if splitAt == 0 {
      return None;
    }
    return ScaledLength(t[..splitAt], Trim(t[splitAt..]));
  }

  /** A number followed by a unit of the table is the number scaled by the
      unit's factor; any other unit is refused. */
  lemma {:induction false} NumberWithUnit(num: string, unit: string)
    requires |num| > 0 && forall i :: 0 <= i < |num| ==> NumberChar.Has(num[i])
    requires forall i :: 0 <= i < |unit| ==> 'a' <= unit[i] <= 'z'
    ensures SvgLengthToPx(num + unit) == ScaledLength(num, unit)
  {
    NumberWithUnitTrimmed(num, unit);
    NumberWithUnitRun(num, unit);
    TrimNoop(unit);
    var t := num + unit;
    assert t[..|num|] == num && t[|num|..] == unit;
  }

  lemma NumberWithUnitTrimmed(num: string, unit: string)
    requires |num| > 0 && forall i :: 0 <= i < |num| ==> NumberChar.Has(num[i])
    requires forall i :: 0 <= i < |unit| ==> 'a' <= unit[i] <= 'z'
    ensures Trim(num + unit) == num + unit
  {
    var t := num + unit;
    assert t[0] == num[0] && !IsWhitespace(t[0]);
    assert |unit| > 0 ==> t[|t| - 1] == unit[|unit| - 1];
    assert !IsWhitespace(t[|t| - 1]);
    TrimNoop(t);
  }

  lemma NumberWithUnitRun(num: string, unit: string)
    requires |num| > 0 && forall i :: 0 <= i < |num| ==> NumberChar.Has(num[i])
    requires forall i :: 0 <= i < |unit| ==> 'a' <= unit[i] <= 'z'
    ensures RunLength(num + unit, NumberChar) == |num|
  {
    var t := num + unit;
    assert forall j :: 0 <= j < |num| ==> t[j] == num[j];
    assert |unit| > 0 ==> t[|num|] == unit[0];
    RunLengthUnique(t, NumberChar, |num|);
  }

  /** Whitespace around a length does not change it. */
  lemma SurroundingWhitespace(ws1: string, s: string, ws2: string)
    requires forall i :: 0 <= i < |ws1| ==> IsWhitespace(ws1[i])
    requires forall i :: 0 <= i < |ws2| ==> IsWhitespace(ws2[i])
    requires |s| > 0 && !IsWhitespace(s[0]) && !IsWhitespace(s[|s| - 1])
    ensures SvgLengthToPx(ws1 + s + ws2) == SvgLengthToPx(s)
  {
    var u := ws1 + s + ws2;
    assert u[|ws1|] == s[0];
    RunLengthUnique(u, Whitespace, |ws1|);
    assert TrimStart(u) == s + ws2;
    var v := s + ws2;
    assert v[|s| - 1] == s[|s| - 1];
    assert TrimEnd(v) == s by {
      TrailingIsSuffix(s, ws2);
    }
    TrimNoop(s);
  }

  datatype ViewBox = ViewBox(minX: real, minY: real, width: real, height: real)

  predicate AllParse(parts: seq<string>) {
    forall k :: 0 <= k < |parts| ==> ParseF64(parts[k]).Some?
  }

  /** Every piece parsed as `f64`, or `None` when one of them does not parse. */
  function ParseAll(parts: seq<string>): (r: Option<seq<real>>)
    ensures r.Some? <==> AllParse(parts)
    ensures r.Some? ==>
      |r.value| == |parts| && forall k :: 0 <= k < |parts| ==> r.value[k] == ParseF64(parts[k]).value
  {
    if |parts| == 0 then Some([])
    else
      var head, tail := ParseF64(parts[0]), ParseAll(parts[1..]);
      if head.Some? && tail.Some? then
        assert forall k :: 1 <= k < |parts| ==> parts[k] == parts[1..][k - 1];
        Some([head.value] + tail.value)
      else
        assert !AllParse(parts) by {
          if head.Some? {
            var k :| 0 <= k < |parts[1..]| && ParseF64(parts[1..][k]).None?;
            assert parts[k + 1] == parts[1..][k];
          }
        }
        None
  }

  /** `parse_viewbox`: split on whitespace and commas, drop empty pieces,
      and read exactly four numbers. */
  function ParseViewBox(s: string): Option<ViewBox> {
    var parts := NonEmpty(Split(s, OnWhitespaceOrComma));
    if |parts| != 4 then None
    else match ParseAll(parts)
      case None => None
      case Some(v) => Some(ViewBox(v[0], v[1], v[2], v[3]))
  }

  /** Four numbers with any runs of whitespace and commas around them (at
      least one character between neighbours) read back as the `viewBox`
      they describe. */
  lemma ViewBoxRoundTrip(fields: seq<string>, seps: seq<string>)
    requires |fields| == 4 && |seps| == 5
    requires forall k :: 0 <= k < 4 ==> fields[k] != [] && NoMatch(fields[k], OnWhitespaceOrComma)
    requires forall k :: 0 <= k < 4 ==> ParseF64(fields[k]).Some?
    requires forall k :: 0 <= k < 5 ==> AllMatch(seps[k], OnWhitespaceOrComma)
    requires forall k :: 0 < k < 4 ==> seps[k] != []
    ensures ParseViewBox(Interleave(fields, seps))
      == Some(ViewBox(ParseF64(fields[0]).value, ParseF64(fields[1]).value,
                      ParseF64(fields[2]).value, ParseF64(fields[3]).value))
  {
    SplitRuns(fields, seps, OnWhitespaceOrComma);
  }

  /** A text with other than four numbers between its separator runs is not
      a `viewBox`. */
  lemma ViewBoxNeedsFourFields(fields: seq<string>, seps: seq<string>)
    requires |fields| != 4 && |seps| == |fields| + 1
    requires forall k :: 0 <= k < |fields| ==> fields[k] != [] && NoMatch(fields[k], OnWhitespaceOrComma)
    requires forall k :: 0 <= k < |seps| ==> AllMatch(seps[k], OnWhitespaceOrComma)
    requires forall k :: 0 < k < |fields| ==> seps[k] != []
    ensures ParseViewBox(Interleave(fields, seps)) == None
  {
    SplitRuns(fields, seps, OnWhitespaceOrComma);
  }

  /** The root element's size in pixels and its `viewBox` extent. */
  datatype SvgMetrics = SvgMetrics(svgPxW: real, svgPxH: real, viewBoxW: real, viewBoxH: real)

  /** `(units * (px / vb)).round().max(1.0) as u32` with IEEE division: a zero
      `vb` gives an infinite product (saturating to `u32::MAX`) when `units`
      and `px` share a sign, and otherwise minus infinity or NaN, which
      `max(1.0)` turns into 1. */
  function ScaledPixels(units: real, px: real, vb: real): (n: nat)
    ensures 1 <= n <= U32_MAX
    ensures vb != 0.0 && 0.5 <= units * (px / vb) < U32_MAX as real + 0.5 ==>
      units * (px / vb) - 0.5 <= n as real <= units * (px / vb) + 0.5
    ensures vb == 0.0 ==> (n == U32_MAX <==> units * px > 0.0)
  {
    if vb == 0.0 then (if units * px > 0.0 then U32_MAX else 1)
    else PixelCount(units * (px / vb))
  }

  /** `image_pixels`: an image's size in user units, in output pixels. */
  function ImagePixels(m: SvgMetrics, wUnits: real, hUnits: real): (r: (nat, nat))
    ensures 1 <= r.0 <= U32_MAX && 1 <= r.1 <= U32_MAX
  {
    (ScaledPixels(wUnits, m.svgPxW, m.viewBoxW), ScaledPixels(hUnits, m.svgPxH, m.viewBoxH))
  }

  /** An image that fills the `viewBox` is as large as the viewport. */
  lemma FullViewBox(m: SvgMetrics)
    requires m.viewBoxW != 0.0 && m.viewBoxH != 0.0
    ensures ImagePixels(m, m.viewBoxW, m.viewBoxH) == (PixelCount(m.svgPxW), PixelCount(m.svgPxH))
  {
    assert m.viewBoxW * (m.svgPxW / m.viewBoxW) == m.svgPxW;
    assert m.viewBoxH * (m.svgPxH / m.viewBoxH) == m.svgPxH;
  }

  /** The unit test's template: a 1080 px square over a 285.75 user-unit
      `viewBox` maps a 158.75 x 190.5 image to 600 x 720 pixels. */
  lemma ImagePixelsAnchor()
    ensures ImagePixels(SvgMetrics(1080.0, 1080.0, 285.75, 285.75), 158.75, 190.5) == (600, 720)
  {
    assert 158.75 * (1080.0 / 285.75) == 600.0;
    assert 190.5 * (1080.0 / 285.75) == 720.0;
  }

  /** Without metrics: 1000 pixels wide and `(1000 / aspect).round().max(1.0)`
      high, where `aspect = (w / h).max(0.0001)` in IEEE arithmetic (a zero
      height gives an aspect of infinity when the width is positive and of
      0.0001 otherwise). */
  function FallbackPixels(wUnits: real, hUnits: real): (r: (nat, nat))
    ensures r.0 == 1000 && 1 <= r.1 <= 10000000
    ensures hUnits > 0.0 && wUnits >= 0.0001 * hUnits && 1000.0 * hUnits / wUnits >= 0.5 ==>
      1000.0 * hUnits / wUnits - 0.5 <= r.1 as real <= 1000.0 * hUnits / wUnits + 0.5
  {
    if hUnits == 0.0 then (1000, if wUnits > 0.0 then 1 else 10000000)
    else
      var aspect := Aspect(wUnits, hUnits);
      AspectBounds(wUnits, hUnits);
      (1000, PixelCount(1000.0 / aspect))
  }

  /** `(w / h).max(0.0001)` for a non-zero `h`. */
  function Aspect(w: real, h: real): real
    requires h != 0.0
  {
    if w / h > 0.0001 then w / h else 0.0001
  }

  lemma AspectBounds(w: real, h: real)
    requires h != 0.0
    ensures Aspect(w, h) >= 0.0001 && 1000.0 / Aspect(w, h) <= 10000000.0
    ensures h > 0.0 && w >= 0.0001 * h ==> 1000.0 / Aspect(w, h) == 1000.0 * h / w
  {
    var a := Aspect(w, h);
    QuotientBound(a);
    if h > 0.0 && w >= 0.0001 * h {
      RatioAtLeast(w, h);
      assert a == w / h;
      InverseRatio(w, h);
    }
  }

  lemma QuotientBound(a: real)
    requires a >= 0.0001
    ensures 1000.0 / a <= 10000000.0
  {
    var q := 1000.0 / a;
    assert q * a == 1000.0;
    assert q * 0.0001 <= q * a;
  }

  lemma RatioAtLeast(w: real, h: real)
    requires h > 0.0 && w >= 0.0001 * h
    ensures w / h >= 0.0001
  {
    var r := w / h;
    assert r * h == w;
  }

  lemma InverseRatio(w: real, h: real)
    requires h > 0.0 && w > 0.0
    ensures 1000.0 / (w / h) == 1000.0 * h / w
  {
    var r := w / h;
    assert r * h == w;
    assert (1000.0 * h / w) * r == 1000.0 * h * r / w;
  }


  const StrokeKey: string := "stroke:"

  /** `extract_hex_stroke_from_style`: after the first `stroke:` and any
      whitespace, '#' and a run of exactly six or eight hex digits. */
  function StrokeHexFromStyle(style: string): (r: Option<string>)
    ensures r.Some? ==> IsHexColor(r.value) && TryFromHex(r.value) == Some(Color(r.value))
  {
    match FindSub(style, StrokeKey)
    case None => None
    case Some(idx) => HexAfterKey(style[idx + |StrokeKey|..])
  }

  /** What follows `stroke:`: whitespace, '#' and six or eight hex digits. */
  function HexAfterKey(rest: string): (r: Option<string>)
    ensures r.Some? ==> IsHexColor(r.value)
  {
    var after := TrimStart(rest);
    if |after| == 0 || after[0] != '#' then None
    else
      var n := RunLength(after[1..], HexDigit);
      if n == 6 || n == 8 then Some("#" + after[1..][..n]) else None
  }

  /** Counts the hex digits at the start of `s` one at a time. */
  method CountHexDigits(s: string) returns (n: nat)
    ensures n == RunLength(s, HexDigit)
  {
    n := 0;
    while n < |s| && IsHexDigit(s[n])
      invariant n <= |s|
      invariant forall j :: 0 <= j < n ==> IsHexDigit(s[j])
    {
      n := n + 1;
    }
    RunLengthUnique(s, HexDigit, n);
  }

  /** `extract_hex_stroke_from_style` in the source's own statement order:
      find the key, skip whitespace, count the hex digits with the loop of
      `CountHexDigits`. `StrokeHexFromStyle` is the same operation as a
      function; the properties are proved about it, and the ensures below
      ties this method to it. */
  method ExtractHexStrokeFromStyle(style: string) returns (r: Option<string>)
    ensures r == StrokeHexFromStyle(style)
  {
    var idx := FindSub(style, StrokeKey);
    if idx.None? {
      return None;
    }
    var after := TrimStart(style[idx.value + |StrokeKey|..]);
    if |after| == 0 || after[0] != '#' {
      return None;
    }
    var digits := after[1..];
    var hexLen := CountHexDigits(digits);
    if hexLen != 6 && hexLen != 8 {
      return None;
    }
    return Some("#" + digits[..hexLen]);
  }

  /** A style whose first `stroke:` is followed by whitespace, '#' and six or
      eight hex digits yields that colour. */
  lemma {:induction false} StrokeFound(pre: string, ws: string, hex: string, post: string)
    requires FindSub(pre + StrokeKey, StrokeKey) == Some(|pre|)
    requires forall i :: 0 <= i < |ws| ==> IsWhitespace(ws[i])
    requires IsHexColor(hex)
    requires |post| > 0 ==> !IsHexDigit(post[0])
    ensures StrokeHexFromStyle(pre + StrokeKey + ws + hex + post) == Some(hex)
  {
    var rest := ws + hex + post;
    HexAfterWhitespace(ws, hex, post);
    assert HexAfterKey(rest) == Some(hex);
    FirstKeyAt(pre, rest);
    KeyThen(pre, rest);
    AppendRegroup(pre + StrokeKey, ws, hex, post);
  }

  /** After the first `stroke:`, the colour is read from what follows it. */
  lemma KeyThen(pre: string, rest: string)
    requires FindSub(pre + StrokeKey + rest, StrokeKey) == Some(|pre|)
    ensures StrokeHexFromStyle(pre + StrokeKey + rest) == HexAfterKey(rest)
  {
    DropFront(pre, StrokeKey, rest);
    AfterFirstKey(pre + StrokeKey + rest, |pre|, rest);
  }

  lemma AfterFirstKey(style: string, i: nat, rest: string)
    requires FindSub(style, StrokeKey) == Some(i)
    requires i + |StrokeKey| <= |style| && style[i + |StrokeKey|..] == rest
    ensures StrokeHexFromStyle(style) == HexAfterKey(rest)
  {
  }

  /** What follows the first `stroke:` does not move it. */
  lemma FirstKeyAt(pre: string, rest: string)
    requires FindSub(pre + StrokeKey, StrokeKey) == Some(|pre|)
    ensures FindSub(pre + StrokeKey + rest, StrokeKey) == Some(|pre|)
  {
    var head := pre + StrokeKey;
    var style := head + rest;
    assert style[|pre|..|pre| + |StrokeKey|] == head[|pre|..] == StrokeKey;
    assert OccursAt(style, StrokeKey, |pre|);
    forall j: nat | j < |pre| ensures !OccursAt(style, StrokeKey, j) {
      assert !OccursAt(head, StrokeKey, j);
      assert style[j..j + |StrokeKey|] == head[j..j + |StrokeKey|];
    }
  }

  /** A prefix without any 's' cannot hold an earlier `stroke:`. */
  lemma KeyAfterPlainPrefix(pre: string)
    requires NoMatch(pre, OnChar('s'))
    ensures FindSub(pre + StrokeKey, StrokeKey) == Some(|pre|)
  {
    var style := pre + StrokeKey;
    assert style[|pre|..|pre| + |StrokeKey|] == StrokeKey;
    NoKeyInPlainPrefix(pre);
    FindSubAt(style, StrokeKey, |pre|);
  }

  lemma NoKeyInPlainPrefix(pre: string)
    requires NoMatch(pre, OnChar('s'))
    ensures forall j: nat :: j < |pre| ==> !OccursAt(pre + StrokeKey, StrokeKey, j)
  {
    var style := pre + StrokeKey;
    forall j: nat | j < |pre| ensures !OccursAt(style, StrokeKey, j) {
      assert style[j] == pre[j];
    }
  }

  lemma HexAfterWhitespace(ws: string, hex: string, post: string)
    requires forall i :: 0 <= i < |ws| ==> IsWhitespace(ws[i])
    requires IsHexColor(hex)
    requires |post| > 0 ==> !IsHexDigit(post[0])
    ensures var after := TrimStart(ws + hex + post);
      |after| > 0 && after[0] == '#' && RunLength(after[1..], HexDigit) == |hex| - 1
      && "#" + after[1..][..|hex| - 1] == hex
  {
    var u := ws + hex + post;
    assert u[|ws|] == '#';
    RunLengthUnique(u, Whitespace, |ws|);
    var after := TrimStart(u);
    assert after == hex + post;
    var digits := after[1..];
    assert digits == hex[1..] + post;
    RunLengthUnique(digits, HexDigit, |hex| - 1);
    assert digits[..|hex| - 1] == hex[1..];
  }

  /** A run of hex digits of any other length than six or eight is refused. */
  lemma {:induction false} StrokeWrongLength(pre: string, ws: string, digits: string, post: string)
    requires FindSub(pre + StrokeKey, StrokeKey) == Some(|pre|)
    requires forall i :: 0 <= i < |ws| ==> IsWhitespace(ws[i])
    requires forall i :: 0 <= i < |digits| ==> IsHexDigit(digits[i])
    requires |digits| != 6 && |digits| != 8
    requires |post| > 0 ==> !IsHexDigit(post[0])
    ensures StrokeHexFromStyle(pre + StrokeKey + ws + "#" + digits + post) == None
  {
    var rest := ws + ("#" + (digits + post));
    WrongRunAfterKey(ws, digits, post);
    FirstKeyAt(pre, rest);
    KeyThen(pre, rest);
    AppendRegroupRight(pre + StrokeKey, ws, "#", digits, post);
  }

  lemma WrongRunAfterKey(ws: string, digits: string, post: string)
    requires forall i :: 0 <= i < |ws| ==> IsWhitespace(ws[i])
    requires forall i :: 0 <= i < |digits| ==> IsHexDigit(digits[i])
    requires |digits| != 6 && |digits| != 8
    requires |post| > 0 ==> !IsHexDigit(post[0])
    ensures HexAfterKey(ws + ("#" + (digits + post))) == None
  {
    HashAfterWhitespace(ws, digits + post);
    assert ("#" + (digits + post))[1..] == digits + post;
    RunLengthUnique(digits + post, HexDigit, |digits|);
  }

  lemma HashAfterWhitespace(ws: string, tail: string)
    requires forall i :: 0 <= i < |ws| ==> IsWhitespace(ws[i])
    ensures TrimStart(ws + ("#" + tail)) == "#" + tail
  {
    var u := ws + ("#" + tail);
    assert u[|ws|] == '#';
    RunLengthUnique(u, Whitespace, |ws|);
  }

  /** The unit test's style `fill:none;stroke:#2db192;stroke-width:1`. */
  lemma StrokeAnchor(pre: string, hex: string, post: string)
    requires pre == "fill:none;" && hex == "#2db192" && post == ";stroke-width:1"
    ensures StrokeHexFromStyle(pre + StrokeKey + hex + post) == Some(hex)
  {
    StrokeAnchorPieces(pre, hex, post);
    KeyAfterPlainPrefix(pre);
    StrokeRightAfterKey(pre, hex, post);
  }

  lemma StrokeRightAfterKey(pre: string, hex: string, post: string)
    requires FindSub(pre + StrokeKey, StrokeKey) == Some(|pre|) && IsHexColor(hex)
    requires |post| > 0 ==> !IsHexDigit(post[0])
    ensures StrokeHexFromStyle(pre + StrokeKey + hex + post) == Some(hex)
  {
    StrokeFound(pre, "", hex, post);
    assert pre + StrokeKey + "" == pre + StrokeKey;
  }

  lemma StrokeAnchorPieces(pre: string, hex: string, post: string)
    requires pre == "fill:none;" && hex == "#2db192" && post == ";stroke-width:1"
    ensures NoMatch(pre, OnChar('s')) && IsHexColor(hex) && !IsHexDigit(post[0])
  {
  }

  lemma TrimNoopStart(s: string)
    requires |s| > 0 && !IsWhitespace(s[0])
    ensures TrimStart(s) == s
  {
    RunLengthUnique(s, Whitespace, 0);
  }

  /** A number that parses, followed by a unit of the table, is that many
      units in pixels. */
  lemma LengthWithUnit(num: string, unit: string, v: real, f: real, px: real)
    requires |num| > 0 && forall i :: 0 <= i < |num| ==> NumberChar.Has(num[i])
    requires forall i :: 0 <= i < |unit| ==> 'a' <= unit[i] <= 'z'
    requires ParseF64(num) == Some(v) && UnitFactor(unit) == Some(f) && px == InPixels(v, f)
    ensures SvgLengthToPx(num + unit) == Some(px)
  {
    NumberWithUnit(num, unit);
    ScaledSome(ParseF64(num), UnitFactor(unit), v, f);
  }

  lemma ScaledSome(parsed: Option<real>, factor: Option<real>, v: real, f: real)
    requires parsed == Some(v) && factor == Some(f)
    ensures Scaled(parsed, factor) == Some(InPixels(v, f))
  {
  }

  /** The unit tests' lengths: 1080 and 1080px are 1080 pixels; 25.4mm,
      2.54cm, 1in and 72pt are all one inch, 96 pixels. The texts are
      parameters fixed by `requires`, so that the verifier reasons about them
      step by step rather than unfolding the parser on a literal. */
  lemma PixelValue(num: string)
    requires num == "1080"
    ensures ParseF64(num) == Some(1080.0)
  {
    assert ParseDigits(num) == 1080 by {
      assert num[..3] == "108" && "108"[..2] == "10" && "10"[..1] == "1" && "1"[..0] == "";
    }
    ParseDigitText(num);
  }

  lemma UnitlessAnchor(num: string)
    requires num == "1080"
    ensures SvgLengthToPx(num) == Some(1080.0)
  {
    PixelValue(num);
    LengthWithUnit(num, "", 1080.0, 1.0, 1080.0);
    assert num + "" == num;
  }

  lemma PixelAnchor(num: string, unit: string)
    requires num == "1080" && unit == "px"
    ensures SvgLengthToPx(num + unit) == Some(1080.0)
  {
    PixelValue(num);
    LengthWithUnit(num, unit, 1080.0, 1.0, 1080.0);
  }

  lemma MillimetreValue(mm: string)
    requires mm == "25.4"
    ensures ParseF64(mm) == Some(25.4)
  {
    assert ParseDigits(mm[..2]) == 25 && ParseDigits(mm[3..]) == 4 by {
      assert mm[..2] == "25" && "25"[..1] == "2" && "2"[..0] == "" && mm[3..][..0] == "";
    }
    assert Pow10(1) == 10;
    ParseDecimalAt(mm, 2);
  }

  lemma MillimetreAnchor(mm: string, unit: string)
    requires mm == "25.4" && unit == "mm"
    ensures SvgLengthToPx(mm + unit) == Some(96.0)
  {
    MillimetreValue(mm);
    assert UnitFactor(unit) == Some(96.0 / 25.4);
    LengthWithUnit(mm, unit, 25.4, 96.0 / 25.4, 96.0);
  }

  lemma CentimetreValue(cm: string)
    requires cm == "2.54"
    ensures ParseF64(cm) == Some(2.54)
  {
    assert ParseDigits(cm[..1]) == 2 && ParseDigits(cm[2..]) == 54 by {
      assert cm[..1][..0] == "" && cm[2..] == "54" && "54"[..1] == "5" && "5"[..0] == "";
    }
    assert Pow10(2) == 100;
    ParseDecimalAt(cm, 1);
  }

  lemma CentimetreAnchor(cm: string, unit: string)
    requires cm == "2.54" && unit == "cm"
    ensures SvgLengthToPx(cm + unit) == Some(96.0)
  {
    CentimetreValue(cm);
    assert UnitFactor(unit) == Some(96.0 / 2.54);
    LengthWithUnit(cm, unit, 2.54, 96.0 / 2.54, 96.0);
  }

  lemma InchAnchor(inch: string, unit: string)
    requires inch == "1" && unit == "in"
    ensures SvgLengthToPx(inch + unit) == Some(96.0)
  {
    InchPieces(inch, unit);
    LengthWithUnit(inch, unit, 1.0, 96.0, 96.0);
  }

  lemma InchPieces(inch: string, unit: string)
    requires inch == "1" && unit == "in"
    ensures |inch| > 0 && (forall i :: 0 <= i < |inch| ==> NumberChar.Has(inch[i]))
    ensures forall i :: 0 <= i < |unit| ==> 'a' <= unit[i] <= 'z'
    ensures ParseF64(inch) == Some(1.0) && UnitFactor(unit) == Some(96.0)
  {
    assert ParseDigits(inch) == 1 by {
      assert inch[..0] == "";
    }
    ParseDigitText(inch);
  }

  lemma PointAnchor(pt: string, unit: string)
    requires pt == "72" && unit == "pt"
    ensures SvgLengthToPx(pt + unit) == Some(96.0)
  {
    assert ParseDigits(pt) == 72 by {
      assert pt[..1] == "7" && "7"[..0] == "";
    }
    ParseDigitText(pt);
    assert UnitFactor(unit) == Some(96.0 / 72.0);
    LengthWithUnit(pt, unit, 72.0, 96.0 / 72.0, 96.0);
  }
}
