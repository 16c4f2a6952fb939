/** Character and string helpers with the meaning Rust's `str` gives them:
    Unicode whitespace for `trim`, `split` that keeps empty pieces, `find`
    that returns the first occurrence, and decimal digit strings. */
module Text {
  import opened Base

  /** Rust's `char::is_whitespace`: the Unicode White_Space property. */
  predicate IsWhitespace(c: char) {
    ('\t' <= c <= '\r') || c == ' ' || c == '\U{0085}' || c == '\U{00A0}' || c == '\U{1680}'
    || ('\U{2000}' <= c <= '\U{200A}') || c == '\U{2028}' || c == '\U{2029}'
    || c == '\U{202F}' || c == '\U{205F}' || c == '\U{3000}'
  }

  predicate IsDigit(c: char) {
    '0' <= c <= '9'
  }

  predicate IsHexDigit(c: char) {
    IsDigit(c) || 'a' <= c <= 'f' || 'A' <= c <= 'F'
  }

  /** The character classes whose leading runs the source measures. */
  datatype CharClass = Whitespace | NumberChar | HexDigit {
    predicate Has(c: char) {
      match this
      case Whitespace => IsWhitespace(c)
      case NumberChar => IsDigit(c) || c == '.' || c == '-'
      case HexDigit => IsHexDigit(c)
    }
  }

  /** Length of the longest prefix of `s` whose characters are all in `cls`. */
  function RunLength(s: string, cls: CharClass): (n: nat)
    ensures n <= |s|
    ensures forall i :: 0 <= i < n ==> cls.Has(s[i])
    ensures n < |s| ==> !cls.Has(s[n])
  {
    if |s| > 0 && cls.Has(s[0]) then 1 + RunLength(s[1..], cls) else 0
  }

  /** A prefix of `s` of class `cls` that cannot be extended is the run
      `RunLength` measures. */
  lemma RunLengthUnique(s: string, cls: CharClass, k: nat)
    requires k <= |s|
    requires forall i :: 0 <= i < k ==> cls.Has(s[i])
    requires k < |s| ==> !cls.Has(s[k])
    ensures RunLength(s, cls) == k
  {
  }

  /** Number of whitespace characters at the start of `s`. */
  function LeadingWhitespace(s: string): (n: nat)
    ensures n <= |s|
    ensures forall i :: 0 <= i < n ==> IsWhitespace(s[i])
    ensures n < |s| ==> !IsWhitespace(s[n])
  {
    RunLength(s, Whitespace)
  }

  /** Number of whitespace characters at the end of `s`. */
  function TrailingWhitespace(s: string): (n: nat)
    ensures n <= |s|
    ensures forall i :: |s| - n <= i < |s| ==> IsWhitespace(s[i])
    ensures n < |s| ==> !IsWhitespace(s[|s| - n - 1])
  {
    if |s| > 0 && IsWhitespace(s[|s| - 1]) then 1 + TrailingWhitespace(s[..|s| - 1]) else 0
  }

  /** `str::trim_start`. */
  function TrimStart(s: string): (r: string)
    ensures |r| <= |s| && r == s[|s| - |r|..]
    ensures |r| > 0 ==> !IsWhitespace(r[0])
    ensures forall i :: 0 <= i < |s| - |r| ==> IsWhitespace(s[i])
  {
    s[LeadingWhitespace(s)..]
  }

  /** `str::trim_end`. */
  function TrimEnd(s: string): (r: string)
    ensures |r| <= |s| && r == s[..|r|]
    ensures |r| > 0 ==> !IsWhitespace(r[|r| - 1])
    ensures forall i :: |r| <= i < |s| ==> IsWhitespace(s[i])
  {
    s[..|s| - TrailingWhitespace(s)]
  }

  /** `str::trim`: both ends stripped of whitespace. */
  function Trim(s: string): (r: string)
    ensures |r| > 0 ==> !IsWhitespace(r[0]) && !IsWhitespace(r[|r| - 1])
  {
    TrimEnd(TrimStart(s))
  }

  /** A string that neither starts nor ends with whitespace is its own trim. */
  lemma TrimNoop(s: string)
    requires |s| > 0 ==> !IsWhitespace(s[0]) && !IsWhitespace(s[|s| - 1])
    ensures Trim(s) == s
  {
    RunLengthUnique(s, Whitespace, 0);
    assert TrimStart(s) == s;
    assert TrailingWhitespace(s) == 0;
  }

  /** Whitespace appended after a non-whitespace end is exactly what
      `TrailingWhitespace` counts. */
  lemma {:induction false} TrailingIsSuffix(s: string, ws: string)
    requires forall i :: 0 <= i < |ws| ==> IsWhitespace(ws[i])
    requires |s| > 0 && !IsWhitespace(s[|s| - 1])
    ensures TrailingWhitespace(s + ws) == |ws|
    decreases |ws|
  {
    var v := s + ws;
    if |ws| > 0 {
      assert v[|v| - 1] == ws[|ws| - 1];
      assert v[..|v| - 1] == s + ws[..|ws| - 1];
      TrailingIsSuffix(s, ws[..|ws| - 1]);
    } else {
      assert v == s;
    }
  }

  /** `Trim` keeps exactly the slice between the leading and the trailing
      whitespace: any slice with whitespace all around it and non-whitespace
      ends is the trim. */
  lemma TrimUnique(s: string, i: nat, j: nat)
    requires i <= j <= |s|
    requires forall k :: 0 <= k < i ==> IsWhitespace(s[k])
    requires forall k :: j <= k < |s| ==> IsWhitespace(s[k])
    requires i < j ==> !IsWhitespace(s[i]) && !IsWhitespace(s[j - 1])
    ensures Trim(s) == s[i..j]
  {
    if i < j {
      RunLengthUnique(s, Whitespace, i);
      assert TrimStart(s) == s[i..j] + s[j..];
      TrailingIsSuffix(s[i..j], s[j..]);
    } else {
      RunLengthUnique(s, Whitespace, |s|);
      assert TrimStart(s) == [];
    }
  }

  /** Every trim is such a slice. */
  lemma TrimSlice(s: string)
    ensures exists i, j ::
              0 <= i <= j <= |s| && Trim(s) == s[i..j] &&
              (forall k :: 0 <= k < i ==> IsWhitespace(s[k])) &&
              (forall k :: j <= k < |s| ==> IsWhitespace(s[k]))
  {
    var i := LeadingWhitespace(s);
    var j := i + |Trim(s)|;
    var u := TrimStart(s);
    assert u == s[i..];
    assert Trim(s) == u[..|Trim(s)|];
    assert forall k :: j <= k < |s| ==> s[k] == u[k - i];
    assert Trim(s) == s[i..j];
  }

  /** The separators the source splits on. */
  datatype Separator = OnChar(c: char) | OnWhitespaceOrComma | OnExponentMark {
    predicate Matches(ch: char) {
      match this
      case OnChar(c) => ch == c
      case OnWhitespaceOrComma => IsWhitespace(ch) || ch == ','
      case OnExponentMark => ch == 'e' || ch == 'E'
    }
  }

  predicate NoMatch(s: string, sep: Separator) {
    forall j :: 0 <= j < |s| ==> !sep.Matches(s[j])
  }

  /** Index of the first character `sep` matches, or `|s|` when there is none. */
  function FirstMatch(s: string, sep: Separator): (i: nat)
    ensures i <= |s|
    ensures forall j :: 0 <= j < i ==> !sep.Matches(s[j])
    ensures i < |s| ==> sep.Matches(s[i])
  {
    if |s| == 0 || sep.Matches(s[0]) then 0 else 1 + FirstMatch(s[1..], sep)
  }

  /** Rust's `str::split`: the pieces between separators, empty pieces kept. */
  function Split(s: string, sep: Separator): (parts: seq<string>)
    ensures |parts| >= 1
    ensures forall k :: 0 <= k < |parts| ==> NoMatch(parts[k], sep)
    decreases |s|
  {
    var i := FirstMatch(s, sep);
    if i == |s| then [s] else [s[..i]] + Split(s[i + 1..], sep)
  }

  /** `parts.join(sep)`. */
  function JoinWith(parts: seq<string>, sep: string): string {
    if |parts| == 0 then ""
    else if |parts| == 1 then parts[0]
    else parts[0] + sep + JoinWith(parts[1..], sep)
  }

  /** The pieces that are not empty, in order (`.filter(|p| !p.is_empty())`). */
  function NonEmpty(parts: seq<string>): (r: seq<string>)
    ensures |r| <= |parts|
    ensures forall k :: 0 <= k < |r| ==> r[k] != []
  {
    if |parts| == 0 then []
    else (if parts[0] == [] then [] else [parts[0]]) + NonEmpty(parts[1..])
  }

  /** The filter keeps exactly the non-empty pieces. */
  lemma {:induction false} NonEmptyMembers(parts: seq<string>)
    ensures forall p :: p in NonEmpty(parts) <==> p in parts && p != []
  {
    if |parts| > 0 {
      NonEmptyMembers(parts[1..]);
      assert parts == [parts[0]] + parts[1..];
    }
  }

  lemma NonEmptyKeepsNonEmpty(parts: seq<string>)
    requires forall k :: 0 <= k < |parts| ==> parts[k] != []
    ensures NonEmpty(parts) == parts
  {
    if |parts| > 0 {
      NonEmptyKeepsNonEmpty(parts[1..]);
    }
  }

  /** Filtering a concatenation filters each half. */
  lemma {:induction false} NonEmptyAppend(a: seq<string>, b: seq<string>)
    ensures NonEmpty(a + b) == NonEmpty(a) + NonEmpty(b)
  {
    if |a| > 0 {
      assert (a + b)[1..] == a[1..] + b;
      NonEmptyAppend(a[1..], b);
    } else {
      assert a + b == b;
    }
  }

  lemma FirstMatchAfterPiece(a: string, c: char, b: string, sep: Separator)
    requires NoMatch(a, sep) && sep.Matches(c)
    ensures FirstMatch(a + [c] + b, sep) == |a|
  {
    var s := a + [c] + b;
    assert s[|a|] == c;
    assert forall j :: 0 <= j < |a| ==> s[j] == a[j];
  }

  /** Splitting on `c` undoes joining with `c`, for pieces that hold no separator. */
  lemma {:induction false} SplitJoin(parts: seq<string>, sep: Separator, c: char)
    requires |parts| >= 1 && sep.Matches(c)
    requires forall k :: 0 <= k < |parts| ==> NoMatch(parts[k], sep)
    ensures Split(JoinWith(parts, [c]), sep) == parts
  {
    if |parts| == 1 {
      var s := parts[0];
      assert FirstMatch(s, sep) == |s|;
    } else {
      var rest := JoinWith(parts[1..], [c]);
      var s := parts[0] + [c] + rest;
      assert JoinWith(parts, [c]) == s;
      FirstMatchAfterPiece(parts[0], c, rest, sep);
      assert s[..|parts[0]|] == parts[0];
      assert s[|parts[0]| + 1..] == rest;
      SplitJoin(parts[1..], sep, c);
      assert parts == [parts[0]] + parts[1..];
    }
  }

  lemma JoinCons(first: string, rest: seq<string>, sep: string)
    requires |rest| >= 1
    ensures JoinWith([first] + rest, sep) == first + sep + JoinWith(rest, sep)
  {
    assert ([first] + rest)[1..] == rest;
  }

  lemma SplitAround(s: string, i: nat)
    requires i < |s|
    ensures s == s[..i] + [s[i]] + s[i + 1..]
  {
  }

  /** Joining the pieces of a split on a single character gives back the string. */
  lemma {:induction false} JoinSplit(s: string, c: char)
    ensures JoinWith(Split(s, OnChar(c)), [c]) == s
    decreases |s|
  {
    var i := FirstMatch(s, OnChar(c));
    if i < |s| {
      var tail := s[i + 1..];
      JoinSplit(tail, c);
      var rest := Split(tail, OnChar(c));
      assert Split(s, OnChar(c)) == [s[..i]] + rest;
      JoinCons(s[..i], rest, [c]);
      SplitAround(s, i);
    } else {
      assert Split(s, OnChar(c)) == [s];
    }
  }

  /** Every character of `s` is one `sep` matches. */
  predicate AllMatch(s: string, sep: Separator) {
    forall j :: 0 <= j < |s| ==> sep.Matches(s[j])
  }

  /** `seps[0] + fields[0] + seps[1] + ... + fields[n - 1] + seps[n]`: fields
      with a run of separators before, between and after them. */
  function Interleave(fields: seq<string>, seps: seq<string>): (s: string)
    requires |seps| == |fields| + 1
  {
    seps[0] + (if |fields| == 0 then [] else fields[0] + Interleave(fields[1..], seps[1..]))
  }

  /** A run of separators in front of `t` only adds empty pieces. */
  lemma {:induction false} SkipRun(run: string, t: string, sep: Separator)
    requires AllMatch(run, sep)
    ensures NonEmpty(Split(run + t, sep)) == NonEmpty(Split(t, sep))
    decreases |run|
  {
    if |run| > 0 {
      var s := run + t;
      assert s[0] == run[0];
      assert FirstMatch(s, sep) == 0;
      assert s[1..] == run[1..] + t;
      assert Split(s, sep) == [[]] + Split(run[1..] + t, sep);
      NonEmptyAppend([[]], Split(run[1..] + t, sep));
      SkipRun(run[1..], t, sep);
    } else {
      assert run + t == t;
    }
  }

  /** A field followed by a separator is the first non-empty piece. */
  lemma FieldThen(f: string, c: char, t: string, sep: Separator)
    requires f != [] && NoMatch(f, sep) && sep.Matches(c)
    ensures NonEmpty(Split(f + [c] + t, sep)) == [f] + NonEmpty(Split(t, sep))
  {
    var s := f + [c] + t;
    FirstMatchAfterPiece(f, c, t, sep);
    assert s[..|f|] == f;
    assert s[|f| + 1..] == t;
    NonEmptyAppend([f], Split(t, sep));
  }

  lemma AppendAssoc<T>(a: seq<T>, b: seq<T>, c: seq<T>)
    ensures (a + b) + c == a + (b + c)
  {
  }

  lemma ButLastThenLast<T>(s: seq<T>)
    requires |s| > 0
    ensures s[..|s| - 1] + [s[|s| - 1]] == s
  {
  }

  lemma DropFront<T>(a: seq<T>, b: seq<T>, c: seq<T>)
    ensures (a + b + c)[|a| + |b|..] == c
  {
  }

  /** Moving the front of the first separator run out of the interleaving. */
  lemma InterleaveFront(fields: seq<string>, seps: seq<string>, seps': seq<string>, front: string)
    requires |seps| == |fields| + 1 && |seps'| == |seps|
    requires seps'[1..] == seps[1..] && seps[0] == front + seps'[0]
    ensures Interleave(fields, seps) == front + Interleave(fields, seps')
  {
    var tail := if |fields| == 0 then [] else fields[0] + Interleave(fields[1..], seps[1..]);
    assert Interleave(fields, seps') == seps'[0] + tail;
    AppendAssoc(front, seps'[0], tail);
  }

  /** A text made only of separators has no non-empty pieces. */
  lemma NoFields(run: string, sep: Separator)
    requires AllMatch(run, sep)
    ensures NonEmpty(Split(run, sep)) == []
  {
    SkipRun(run, [], sep);
    assert run + [] == run;
    assert FirstMatch([], sep) == 0;
  }

  /** A last field with nothing after it is a piece of its own. */
  lemma LastField(fields: seq<string>, seps: seq<string>, sep: Separator)
    requires |fields| == 1 && |seps| == 2 && seps[1] == []
    requires fields[0] != [] && NoMatch(fields[0], sep)
    ensures NonEmpty(Split(fields[0] + Interleave(fields[1..], seps[1..]), sep)) == fields
  {
    assert Interleave(fields[1..], seps[1..]) == [];
    assert fields[0] + [] == fields[0];
    assert FirstMatch(fields[0], sep) == |fields[0]|;
  }

  /** A field, a separator and then text whose pieces are `tail`. */
  lemma FirstFieldSplits(f: string, c: char, t: string, rest: string, tail: seq<string>, sep: Separator)
    requires f != [] && NoMatch(f, sep) && sep.Matches(c)
    requires f + rest == f + [c] + t
    requires NonEmpty(Split(t, sep)) == tail
    ensures NonEmpty(Split(f + rest, sep)) == [f] + tail
  {
    FieldThen(f, c, t, sep);
  }

  /** Taking the first separator off the run after the first field leaves
      the remaining fields interleaved with separator runs that still keep
      them apart. */
  lemma DropFirstSeparator(fields: seq<string>, seps: seq<string>, sep: Separator)
    requires |seps| == |fields| + 1 && |fields| > 0 && seps[1] != []
    requires forall k :: 0 <= k < |seps| ==> AllMatch(seps[k], sep)
    requires forall k :: 0 < k < |fields| ==> seps[k] != []
    ensures var seps' := [seps[1][1..]] + seps[2..];
      fields[0] + Interleave(fields[1..], seps[1..])
        == fields[0] + [seps[1][0]] + Interleave(fields[1..], seps') &&
      (forall k :: 0 <= k < |seps'| ==> AllMatch(seps'[k], sep)) &&
      (forall k :: 0 < k < |fields[1..]| ==> seps'[k] != [])
  {
    var seps' := [seps[1][1..]] + seps[2..];
    var t := Interleave(fields[1..], seps');
    assert seps[1..][1..] == seps[2..] == seps'[1..];
    assert seps[1] == [seps[1][0]] + seps'[0];
    InterleaveFront(fields[1..], seps[1..], seps', [seps[1][0]]);
    AppendAssoc(fields[0], [seps[1][0]], t);
    forall k | 0 <= k < |seps'| ensures AllMatch(seps'[k], sep) {
      if k > 0 { assert seps'[k] == seps[k + 1]; }
    }
    forall k | 0 < k < |fields[1..]| ensures seps'[k] != [] {
      assert seps'[k] == seps[k + 1];
    }
  }

  /** Splitting on `sep` and dropping the empty pieces recovers the fields,
      whatever runs of separators surround them, as long as adjacent fields
      are kept apart by at least one separator. */
  lemma {:induction false} SplitRuns(fields: seq<string>, seps: seq<string>, sep: Separator)
    requires |seps| == |fields| + 1
    requires forall k :: 0 <= k < |fields| ==> fields[k] != [] && NoMatch(fields[k], sep)
    requires forall k :: 0 <= k < |seps| ==> AllMatch(seps[k], sep)
    requires forall k :: 0 < k < |fields| ==> seps[k] != []
    ensures NonEmpty(Split(Interleave(fields, seps), sep)) == fields
    decreases |fields|
  {
    if |fields| == 0 {
      NoFields(seps[0], sep);
      assert Interleave(fields, seps) == seps[0] + [] == seps[0];
    } else {
      var rest := Interleave(fields[1..], seps[1..]);
      assert Interleave(fields, seps) == seps[0] + (fields[0] + rest);
      SkipRun(seps[0], fields[0] + rest, sep);
      if seps[1] == [] {
        LastField(fields, seps, sep);
      } else {
        var seps' := [seps[1][1..]] + seps[2..];
        var t := Interleave(fields[1..], seps');
        DropFirstSeparator(fields, seps, sep);
        SplitRuns(fields[1..], seps', sep);
        FirstFieldSplits(fields[0], seps[1][0], t, rest, fields[1..], sep);
        assert fields == [fields[0]] + fields[1..];
      }
    }
  }

  /** `needle` occurs in `s` at position `j`. */
  predicate OccursAt(s: string, needle: string, j: nat) {
    j + |needle| <= |s| && s[j..j + |needle|] == needle
  }

  /** An occurrence with none before it is what `find` returns. */
  lemma FindSubAt(s: string, needle: string, i: nat)
    requires OccursAt(s, needle, i)
    requires forall j: nat :: j < i ==> !OccursAt(s, needle, j)
    ensures FindSub(s, needle) == Some(i)
  {
  }

  /** `str::find`: the first position at which `needle` occurs in `s`. */
  function FindSub(s: string, needle: string): (r: Option<nat>)
    ensures r.Some? ==> OccursAt(s, needle, r.value)
    ensures r.Some? ==> forall j: nat :: j < r.value ==> !OccursAt(s, needle, j)
    ensures r.None? ==> forall j: nat :: !OccursAt(s, needle, j)
    decreases |s|
  {
    if |needle| > |s| then None
    else if s[..|needle|] == needle then Some(0)
    else
      assert forall j: nat :: 1 <= j ==> OccursAt(s, needle, j) == OccursAt(s[1..], needle, j - 1) by {
        forall j: nat | 1 <= j && j + |needle| <= |s|
          ensures OccursAt(s, needle, j) == OccursAt(s[1..], needle, j - 1)
        {
          var a, b := s[j..j + |needle|], s[1..][j - 1..j - 1 + |needle|];
          assert |a| == |b| && forall t :: 0 <= t < |a| ==> a[t] == s[j + t] == b[t];
        }
      }
      match FindSub(s[1..], needle)
      case None => None
      case Some(k) => Some(k + 1)
  }

  predicate AllDigits(s: string) {
    forall i :: 0 <= i < |s| ==> IsDigit(s[i])
  }

  function DigitValue(c: char): (d: nat)
    requires IsDigit(c)
    ensures d < 10
  {
    c as int - '0' as int
  }

  function DigitChar(d: nat): (c: char)
    requires d < 10
    ensures IsDigit(c) && DigitValue(c) == d
  {
    ('0' as int + d) as char
  }

  /** The number a string of decimal digits denotes. */
  function ParseDigits(s: string): nat
    requires AllDigits(s)
  {
    if |s| == 0 then 0 else ParseDigits(s[..|s| - 1]) * 10 + DigitValue(s[|s| - 1])
  }

  /** Regrouping a concatenation of four pieces. */
  lemma AppendRegroup<T>(x: seq<T>, a: seq<T>, b: seq<T>, c: seq<T>)
    ensures x + a + b + c == x + (a + b + c)
  {
  }

  /** Regrouping a concatenation of five pieces to the right. */
  lemma AppendRegroupRight<T>(x: seq<T>, a: seq<T>, b: seq<T>, c: seq<T>, d: seq<T>)
    ensures x + a + b + c + d == x + (a + (b + (c + d)))
  {
    AppendRegroup(x + a, b, c, d);
    assert x + a + (b + c + d) == x + (a + (b + c + d));
    assert b + c + d == b + (c + d);
  }

  /** Reading one more digit of a prefix shifts the value by one place. */
  lemma ParseDigitsPrefix(s: string, i: nat)
    requires 0 < i <= |s| && AllDigits(s[..i])
    ensures ParseDigits(s[..i]) == ParseDigits(s[..i - 1]) * 10 + DigitValue(s[i - 1])
  {
    assert s[..i][..i - 1] == s[..i - 1];
  }

  /** Decimal text of a natural number, without leading zeros; parsing it back
      gives the number. */
  function NatToString(n: nat): (r: string)
    ensures |r| >= 1 && AllDigits(r)
    ensures ParseDigits(r) == n
    ensures r[0] == '0' ==> n == 0
  {
    if n < 10 then [DigitChar(n)]
    else
      var r := NatToString(n / 10) + [DigitChar(n % 10)];
      assert r[..|r| - 1] == NatToString(n / 10);
      r
  }

  /** A leading zero does not change the value of a digit string. */
  lemma {:induction false} LeadingZero(s: string)
    requires AllDigits(s)
    ensures AllDigits("0" + s) && ParseDigits("0" + s) == ParseDigits(s)
  {
    if |s| > 0 {
      var t := "0" + s;
      assert t[..|t| - 1] == "0" + s[..|s| - 1];
      LeadingZero(s[..|s| - 1]);
    }
  }
}
