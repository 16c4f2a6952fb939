/** `InputPath::new` (bicit/src/lib.rs): reads the `d` attribute of a template
    path, `prefix start end ...`, into its prefix, its verbatim start token and
    the vector from the start to the end point. */
module InputPaths {
  import opened Base
  import opened Text
  import opened Numbers

  datatype InputPath = InputPath(height: real, length: real, ss: string, prefix: string)

  /** An `x,y` token: `it[1]` and then `it[0]` of its ','-pieces parsed as
      `f64`; a missing second piece or an unparsable piece panics. */
  function ParsePair(token: string): Result<(real, real)> {
    var it := Split(token, OnChar(','));
    if |it| < 2 then Failure("index out of bounds: the len is 1 but the index is 1")
    else match (ParseF64(it[1]), ParseF64(it[0]))
      case (Some(y), Some(x)) => Success((x, y))
      case _ => Failure("called `Result::unwrap()` on an `Err` value: ParseFloatError")
  }

  /** What `InputPath::new` computes from the first token of `d` and, when
      present, the second and third; later tokens are not read. */
  function FromFields(prefix: string, start: Option<string>, end: Option<string>): Result<InputPath>
    requires end.Some? ==> start.Some?
  {
    if prefix != "m" && prefix != "M" then Failure("assertion failed: s == \"m\" || s == \"M\"")
    else if start.None? then Success(InputPath(0.0, 0.0, "", prefix))
    else match ParsePair(start.value)
      case Failure(e) => Failure(e)
      case Success(s) =>
        if end.None? then Success(InputPath(0.0, 0.0, start.value, prefix))
        else match ParsePair(end.value)
          case Failure(e) => Failure(e)
          case Success(p) =>
            if prefix == "m" then Success(InputPath(p.1, p.0, start.value, prefix))
            else Success(InputPath(p.1 - s.1, p.0 - s.0, start.value, prefix))
  }

  function FromTokens(tokens: seq<string>): Result<InputPath>
    requires |tokens| >= 1
  {
    FromFields(tokens[0],
      if |tokens| > 1 then Some(tokens[1]) else None,
      if |tokens| > 2 then Some(tokens[2]) else None)
  }

  function InputPathSpec(d: string): Result<InputPath> {
    FromTokens(Split(d, OnChar(' ')))
  }

  /** `InputPath::new`: one pass over the tokens of `d` that stops after the
      third; a panic of the source is a `Failure`. */
  method NewInputPath(d: string) returns (r: Result<InputPath>)
    ensures r == InputPathSpec(d)
  {
    var tokens := Split(d, OnChar(' '));
    var prefix, ss := "", "";
    var height, length, sx, sy := 0.0, 0.0, 0.0, 0.0;
    var i := 0;
    while i < |tokens|
      invariant 0 <= i <= |tokens| && i <= 3
      invariant i >= 1 ==> prefix == tokens[0] && (prefix == "m" || prefix == "M")
      invariant i < 2 ==> ss == ""
      invariant i >= 2 ==> ss == tokens[1] && ParsePair(tokens[1]) == Success((sx, sy))
      invariant i < 3 ==> height == 0.0 && length == 0.0
      invariant i == 3 ==> FromTokens(tokens) == Success(InputPath(height, length, ss, prefix))
    {
      var s := tokens[i];
      if i == 0 {
        if s != "m" && s != "M" {
          return Failure("assertion failed: s == \"m\" || s == \"M\"");
        }
        prefix := s;
      } else if i == 1 {
        ss := s;
        var start := ParsePair(s);
        if start.Failure? {
          return Failure(start.error);
        }
        sx, sy := start.value.0, start.value.1;
      } else if i == 2 {
        var end := ParsePair(s);
        if end.Failure? {
          return Failure(end.error);
        }
        if prefix == "m" {
          height, length := end.value.1, end.value.0;
        } else {
          height, length := end.value.1 - sy, end.value.0 - sx;
        }
      } else {
        break;
      }
      i := i + 1;
    }
    r := Success(InputPath(height, length, ss, prefix));
  }

  /** A descriptor that reads at all has its first token, `m` or `M`, as prefix. */
  lemma SpecPrefix(d: string)
    ensures InputPathSpec(d).Success? ==> InputPathSpec(d).value.prefix == Split(d, OnChar(' '))[0]
    ensures InputPathSpec(d).Success? ==> InputPathSpec(d).value.prefix in {"m", "M"}
  {
  }

  /** The first token must be `m` or `M`; with it, `prefix` and `ss` are the
      first two tokens verbatim. */
  lemma {:induction false} PrefixChecked(prefix: string, rest: seq<string>)
    requires NoMatch(prefix, OnChar(' '))
    requires forall k :: 0 <= k < |rest| ==> NoMatch(rest[k], OnChar(' '))
    ensures InputPathSpec(JoinWith([prefix] + rest, " ")).Success? ==> prefix == "m" || prefix == "M"
    ensures |rest| >= 1 && InputPathSpec(JoinWith([prefix] + rest, " ")).Success? ==>
      InputPathSpec(JoinWith([prefix] + rest, " ")).value.ss == rest[0]
    ensures |rest| < 2 && (prefix == "m" || prefix == "M") ==> (
      var r := InputPathSpec(JoinWith([prefix] + rest, " "));
      r.Success? ==> r.value.height == 0.0 && r.value.length == 0.0)
  {
    var tokens := [prefix] + rest;
    forall k | 0 <= k < |tokens| ensures NoMatch(tokens[k], OnChar(' ')) {
      if k > 0 { assert tokens[k] == rest[k - 1]; }
    }
    SplitJoin(tokens, OnChar(' '), ' ');
  }

  /** Tokens after the third do not change the result. */
  lemma {:induction false} TrailingTokensIgnored(tokens: seq<string>, more: seq<string>)
    requires |tokens| == 3
    requires forall k :: 0 <= k < |tokens| ==> NoMatch(tokens[k], OnChar(' '))
    requires forall k :: 0 <= k < |more| ==> NoMatch(more[k], OnChar(' '))
    ensures InputPathSpec(JoinWith(tokens + more, " ")) == InputPathSpec(JoinWith(tokens, " "))
  {
    var all := tokens + more;
    forall k | 0 <= k < |all| ensures NoMatch(all[k], OnChar(' ')) {
      if k >= 3 { assert all[k] == more[k - 3]; }
    }
    SplitJoin(all, OnChar(' '), ' ');
    SplitJoin(tokens, OnChar(' '), ' ');
    assert all[0] == tokens[0] && all[1] == tokens[1] && all[2] == tokens[2];
  }

  /** Relative (`m`) and absolute (`M`) end points: for the same start point,
      an `M` end point at `start + (x, y)` gives what an `m` end point `(x, y)` gives. */
  lemma RelativeAbsolute(ss: string, sx: real, sy: real, relEnd: string, absEnd: string)
    requires ParsePair(ss) == Success((sx, sy))
    requires ParsePair(relEnd).Success? && ParsePair(absEnd).Success?
    requires ParsePair(absEnd).value == (ParsePair(relEnd).value.0 + sx, ParsePair(relEnd).value.1 + sy)
    ensures FromTokens(["m", ss, relEnd]).Success? && FromTokens(["M", ss, absEnd]).Success?
    ensures FromTokens(["m", ss, relEnd]).value.height == FromTokens(["M", ss, absEnd]).value.height
    ensures FromTokens(["m", ss, relEnd]).value.length == FromTokens(["M", ss, absEnd]).value.length
  {
    RelativeFields(ss, relEnd);
    AbsoluteFields(ss, absEnd);
  }

  lemma RelativeFields(ss: string, e: string)
    requires ParsePair(ss).Success? && ParsePair(e).Success?
    ensures FromTokens(["m", ss, e])
      == Success(InputPath(ParsePair(e).value.1, ParsePair(e).value.0, ss, "m"))
  {
    var tokens := ["m", ss, e];
    assert tokens[0] == "m" && tokens[1] == ss && tokens[2] == e;
  }

  lemma AbsoluteFields(ss: string, e: string)
    requires ParsePair(ss).Success? && ParsePair(e).Success?
    ensures FromTokens(["M", ss, e]) == Success(InputPath(
      ParsePair(e).value.1 - ParsePair(ss).value.1, ParsePair(e).value.0 - ParsePair(ss).value.0, ss, "M"))
  {
    var tokens := ["M", ss, e];
    assert tokens[0] == "M" && tokens[1] == ss && tokens[2] == e;
  }

  /** `x,y` with two parsable pieces is the pair of their values. */
  lemma ParsePairJoined(x: string, y: string)
    requires NoMatch(x, OnChar(',')) && NoMatch(y, OnChar(','))
    requires ParseF64(x).Some? && ParseF64(y).Some?
    ensures ParsePair(x + "," + y) == Success((ParseF64(x).value, ParseF64(y).value))
  {
    assert JoinWith([x, y], ",") == x + "," + y;
    SplitJoin([x, y], OnChar(','), ',');
  }

  lemma ThreeTokens(a: string, b: string, c: string)
    requires NoMatch(a, OnChar(' ')) && NoMatch(b, OnChar(' ')) && NoMatch(c, OnChar(' '))
    ensures InputPathSpec(a + " " + b + " " + c) == FromTokens([a, b, c])
  {
    var tokens := [a, b, c];
    assert JoinWith(tokens[2..], " ") == c;
    assert JoinWith(tokens[1..], " ") == b + " " + c;
    assert JoinWith(tokens, " ") == a + " " + b + " " + c;
    SplitJoin(tokens, OnChar(' '), ' ');
  }

  /** A descriptor `p sx,sy ex,ey` of parsable coordinates: `m` reads the
      end point as the vector, `M` subtracts the start point from it. */
  lemma {:induction false} ThreePointDescriptor(p: string, sx: string, sy: string, ex: string, ey: string)
    requires p == "m" || p == "M"
    requires NoMatch(sx, OnChar(',')) && NoMatch(sy, OnChar(',')) && NoMatch(ex, OnChar(',')) && NoMatch(ey, OnChar(','))
    requires NoMatch(sx + "," + sy, OnChar(' ')) && NoMatch(ex + "," + ey, OnChar(' '))
    requires ParseF64(sx).Some? && ParseF64(sy).Some? && ParseF64(ex).Some? && ParseF64(ey).Some?
    ensures var r := InputPathSpec(p + " " + (sx + "," + sy) + " " + (ex + "," + ey));
      r.Success? && r.value.prefix == p && r.value.ss == sx + "," + sy
      && (p == "m" ==> r.value.length == ParseF64(ex).value && r.value.height == ParseF64(ey).value)
      && (p == "M" ==>
            r.value.length == ParseF64(ex).value - ParseF64(sx).value
            && r.value.height == ParseF64(ey).value - ParseF64(sy).value)
  {
    assert NoMatch(p, OnChar(' '));
    ThreeTokens(p, sx + "," + sy, ex + "," + ey);
    ParsePairJoined(sx, sy);
    ParsePairJoined(ex, ey);
  }

  /** Two number texts form one `x,y` token. */
  lemma NumberTokens(x: string, y: string)
    requires forall k :: 0 <= k < |x| ==> x[k] == '-' || x[k] == '.' || IsDigit(x[k])
    requires forall k :: 0 <= k < |y| ==> y[k] == '-' || y[k] == '.' || IsDigit(y[k])
    ensures NoMatch(x, OnChar(',')) && NoMatch(y, OnChar(','))
    ensures NoMatch(x + "," + y, OnChar(' '))
  {
    var t := x + "," + y;
    forall k | 0 <= k < |t| ensures t[k] != ' ' {
      if k < |x| { assert t[k] == x[k]; }
      else if k > |x| { assert t[k] == y[k - |x| - 1]; }
    }
  }

  /** The coordinates of the test descriptors read as the decimals they
      spell. The texts are parameters fixed by `requires`, so that the
      verifier reasons about them step by step rather than unfolding the
      parser on a literal. */
  lemma RelativeValues(sx: string, sy: string, ex: string, ey: string)
    requires sx == "2.64583" && sy == "169.33333" && ex == "10.583337" && ey == "-31.75"
    ensures ParseF64(ex) == Some(10.583337) && ParseF64(ey) == Some(-31.75)
    ensures ParseF64(sx).Some? && ParseF64(sy).Some?
  {
    assert ParseDigits(sx[..1]) == 2 && ParseDigits(sy[..3]) == 169 by {
      assert sx[..1][..0] == "" && sy[..3] == "169";
      assert "169"[..2] == "16" && "16"[..1] == "1" && "1"[..0] == "";
    }
    ParseDecimalAt(sx, 1);
    ParseDecimalAt(sy, 3);
    EndValue(ex);
    NegativeEndValue(ey);
  }

  lemma EndValue(ex: string)
    requires ex == "10.583337"
    ensures ParseF64(ex) == Some(10.583337)
  {
    assert ParseDigits(ex[..2]) == 10 && ParseDigits(ex[3..]) == 583337 by {
      assert ex[..2] == "10" && ex[3..] == "583337";
      assert "10"[..1] == "1" && "1"[..0] == "";
      assert "583337"[..5] == "58333" && "58333"[..4] == "5833" && "5833"[..3] == "583";
      assert "583"[..2] == "58" && "58"[..1] == "5" && "5"[..0] == "";
    }
    assert Pow10(6) == 1000000;
    ParseDecimalAt(ex, 2);
  }

  lemma NegativeEndValue(ey: string)
    requires ey == "-31.75"
    ensures ParseF64(ey) == Some(-31.75)
  {
    var u := ey[1..];
    assert ey == "-" + u;
    UnsignedEndValue(u);
    ParseNegative(u);
  }

  lemma UnsignedEndValue(u: string)
    requires u == "31.75"
    ensures ParseUnsigned(u) == Some(31.75)
  {
    assert ParseDigits(u[..2]) == 31 && ParseDigits(u[3..]) == 75 by {
      assert u[..2] == "31" && u[3..] == "75";
      assert "31"[..1] == "3" && "3"[..0] == "" && "75"[..1] == "7" && "7"[..0] == "";
    }
    assert Pow10(2) == 100;
    ParseDecimalAt(u, 2);
  }

  lemma RelativeTokens(sx: string, sy: string, ex: string, ey: string)
    requires sx == "2.64583" && sy == "169.33333" && ex == "10.583337" && ey == "-31.75"
    ensures NoMatch(sx, OnChar(',')) && NoMatch(sy, OnChar(',')) && NoMatch(ex, OnChar(',')) && NoMatch(ey, OnChar(','))
    ensures NoMatch(sx + "," + sy, OnChar(' ')) && NoMatch(ex + "," + ey, OnChar(' '))
  {
    NumberTokens(sx, sy);
    NumberTokens(ex, ey);
  }

  /** `InputPath::new("m 2.64583,169.33333 10.583337,-31.75")`. The texts are
      parameters fixed by `requires`, so that the verifier reasons about the
      pieces rather than unfolding the parser on a literal. */
  lemma RelativeAnchor(sx: string, sy: string, ex: string, ey: string)
    requires sx == "2.64583" && sy == "169.33333" && ex == "10.583337" && ey == "-31.75"
    ensures var r := InputPathSpec("m" + " " + (sx + "," + sy) + " " + (ex + "," + ey));
      r == Success(InputPath(-31.75, 10.583337, sx + "," + sy, "m"))
  {
    RelativeValues(sx, sy, ex, ey);
    RelativeTokens(sx, sy, ex, ey);
    ThreePointDescriptor("m", sx, sy, ex, ey);
  }

  lemma AbsoluteStart(sx: string, sy: string)
    requires sx == "5.2" && sy == "174.6"
    ensures ParseF64(sx) == Some(5.2) && ParseF64(sy) == Some(174.6)
  {
    assert ParseDigits(sx[..1]) == 5 && ParseDigits(sx[2..]) == 2 by {
      assert sx[..1][..0] == "" && sx[2..][..0] == "";
    }
    assert ParseDigits(sy[..3]) == 174 && ParseDigits(sy[4..]) == 6 by {
      assert sy[..3] == "174" && sy[4..][..0] == "";
      assert "174"[..2] == "17" && "17"[..1] == "1" && "1"[..0] == "";
    }
    assert Pow10(1) == 10;
    ParseDecimalAt(sx, 1);
    ParseDecimalAt(sy, 3);
  }

  lemma AbsoluteEnd(ex: string, ey: string)
    requires ex == "137.5" && ey == "140.2"
    ensures ParseF64(ex) == Some(137.5) && ParseF64(ey) == Some(140.2)
  {
    AbsoluteEndX(ex);
    AbsoluteEndY(ey);
  }

  lemma AbsoluteEndX(ex: string)
    requires ex == "137.5"
    ensures ParseF64(ex) == Some(137.5)
  {
    assert ex[..0] == "" && ex[4..][..0] == "";
    ParseDigitsPrefix(ex, 1);
    ParseDigitsPrefix(ex, 2);
    ParseDigitsPrefix(ex, 3);
    assert Pow10(1) == 10;
    ParseDecimalAt(ex, 3);
  }

  lemma AbsoluteEndY(ey: string)
    requires ey == "140.2"
    ensures ParseF64(ey) == Some(140.2)
  {
    assert ey[..0] == "" && ey[4..][..0] == "";
    ParseDigitsPrefix(ey, 1);
    ParseDigitsPrefix(ey, 2);
    ParseDigitsPrefix(ey, 3);
    assert Pow10(1) == 10;
    ParseDecimalAt(ey, 3);
  }

  lemma AbsoluteTokens(sx: string, sy: string, ex: string, ey: string)
    requires sx == "5.2" && sy == "174.6" && ex == "137.5" && ey == "140.2"
    ensures NoMatch(sx, OnChar(',')) && NoMatch(sy, OnChar(',')) && NoMatch(ex, OnChar(',')) && NoMatch(ey, OnChar(','))
    ensures NoMatch(sx + "," + sy, OnChar(' ')) && NoMatch(ex + "," + ey, OnChar(' '))
  {
    NumberTokens(sx, sy);
    NumberTokens(ex, ey);
  }

  /** `InputPath::new("M 5.2,174.6 137.5,140.2")`, with the texts as
      parameters in the same way. */
  lemma AbsoluteAnchor(sx: string, sy: string, ex: string, ey: string)
    requires sx == "5.2" && sy == "174.6" && ex == "137.5" && ey == "140.2"
    ensures var r := InputPathSpec("M" + " " + (sx + "," + sy) + " " + (ex + "," + ey));
      r == Success(InputPath(-34.4, 132.3, sx + "," + sy, "M"))
  {
    AbsoluteStart(sx, sy);
    AbsoluteEnd(ex, ey);
    AbsoluteTokens(sx, sy, ex, ey);
    AbsoluteResult(sx, sy, ex, ey);
  }

  lemma AbsoluteResult(sx: string, sy: string, ex: string, ey: string)
    requires ParseF64(sx) == Some(5.2) && ParseF64(sy) == Some(174.6)
    requires ParseF64(ex) == Some(137.5) && ParseF64(ey) == Some(140.2)
    requires NoMatch(sx, OnChar(',')) && NoMatch(sy, OnChar(',')) && NoMatch(ex, OnChar(',')) && NoMatch(ey, OnChar(','))
    requires NoMatch(sx + "," + sy, OnChar(' ')) && NoMatch(ex + "," + ey, OnChar(' '))
    ensures var r := InputPathSpec("M" + " " + (sx + "," + sy) + " " + (ex + "," + ey));
      r == Success(InputPath(-34.4, 132.3, sx + "," + sy, "M"))
  {
    ThreePointDescriptor("M", sx, sy, ex, ey);
  }
}
