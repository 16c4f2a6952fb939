/** Track colours. The source holds a `galileo::Color` made by
    `Color::try_from_hex`; this model keeps the colour as its hex text and
    takes `try_from_hex` to accept exactly '#' followed by six or eight hex
    digits. */
module Colors {
  import opened Base
  import opened Text

  datatype Color = Color(hex: string)

  predicate IsHexColor(s: string) {
    (|s| == 7 || |s| == 9) && s[0] == '#'
    && forall i :: 1 <= i < |s| ==> IsHexDigit(s[i])
  }

  /** `Color::try_from_hex`. */
  function TryFromHex(s: string): (r: Option<Color>)
    ensures r.Some? <==> IsHexColor(s)
    ensures r.Some? ==> r.value.hex == s
  {
    if IsHexColor(s) then Some(Color(s)) else None
  }
}
