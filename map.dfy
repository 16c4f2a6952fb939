/** The part of the map renderer (bicit-cli/src/map.rs) that is not drawing:
    removal of consecutive duplicate points and the argument guards of
    `render_track_map_href`. Rendering itself is a parameter. */
module MapRender {
  import opened Base
  import opened Colors

  /** A `geo_types::Point<f64>`: `x` is the longitude, `y` the latitude. */
  datatype Point = Point(x: real, y: real)

  /** The renderer behind the guards: the deduplicated points, the image
      width and height and the optional track colour to a `data:` href, or an
      error. */
  type MapBackend = (seq<Point>, nat, nat, Option<Color>) -> Result<string>

  /** `dedupe_consecutive_coords`, one input point at a time. */
  function Dedupe(coords: seq<Point>): (out: seq<Point>)
    ensures |out| <= |coords|
    ensures |coords| > 0 ==> |out| > 0 && out[|out| - 1] == coords[|coords| - 1]
  {
    if |coords| == 0 then []
    else
      var out := Dedupe(coords[..|coords| - 1]);
      var p := coords[|coords| - 1];
      if |out| > 0 && out[|out| - 1].x == p.x && out[|out| - 1].y == p.y then out else out + [p]
  }

  /** `dedupe_consecutive_coords`: push each point unless it equals the last
      point pushed. */
  method DedupeConsecutiveCoords(coords: seq<Point>) returns (out: seq<Point>)
    ensures out == Dedupe(coords)
  {
    out := [];
    for i := 0 to |coords|
      invariant out == Dedupe(coords[..i])
    {
      var p := coords[i];
      assert coords[..i + 1][..i] == coords[..i];
      if |out| > 0 && out[|out| - 1].x == p.x && out[|out| - 1].y == p.y {
        continue;
      }
      out := out + [p];
    }
    assert coords[..|coords|] == coords;
  }

  /** No two adjacent points of the result are equal. */
  predicate NoAdjacentDuplicates(s: seq<Point>) {
    forall i :: 0 < i < |s| ==> s[i] != s[i - 1]
  }

  /** The reference: the points at which the input changes, that is the first
      point and every point that differs from its predecessor. */
  function Changes(coords: seq<Point>): seq<Point> {
    if |coords| == 0 then []
    else
      var n := |coords|;
      Changes(coords[..n - 1]) + (if n == 1 || coords[n - 1] != coords[n - 2] then [coords[n - 1]] else [])
  }

  /** `b` is `a` with some elements left out, the rest in order. */
  predicate IsSubsequence(a: seq<Point>, b: seq<Point>) {
    if |a| == 0 then true
    else if |b| == 0 then false
    else if a[|a| - 1] == b[|b| - 1] then IsSubsequence(a[..|a| - 1], b[..|b| - 1])
    else IsSubsequence(a, b[..|b| - 1])
  }

  /** The output keeps exactly the points where the input changes, so it has
      no adjacent duplicates, and a point is dropped only when it equals the
      last point kept. */
  lemma {:induction false} DedupeKeepsChanges(coords: seq<Point>)
    ensures Dedupe(coords) == Changes(coords)
    ensures NoAdjacentDuplicates(Dedupe(coords))
  {
    if |coords| > 0 {
      var n := |coords|;
      var init := coords[..n - 1];
      DedupeKeepsChanges(init);
      if n > 1 {
        assert init[|init| - 1] == coords[n - 2];
      }
    }
  }

  /** The output is an order-preserving subsequence of the input. */
  lemma {:induction false} DedupeSubsequence(coords: seq<Point>)
    ensures IsSubsequence(Dedupe(coords), coords)
  {
    if |coords| > 0 {
      var n := |coords|;
      var out := Dedupe(coords[..n - 1]);
      DedupeSubsequence(coords[..n - 1]);
      if Dedupe(coords) == out {
        SubsequenceExtend(out, coords[..n - 1], coords[n - 1]);
      } else {
        assert Dedupe(coords) == out + [coords[n - 1]];
        assert (out + [coords[n - 1]])[..|out|] == out;
        assert coords[..n - 1] == coords[..n][..n - 1];
      }
    }
  }

  lemma {:induction false} SubsequenceExtend(a: seq<Point>, b: seq<Point>, p: Point)
    requires IsSubsequence(a, b)
    ensures IsSubsequence(a, b + [p])
    decreases |a| + |b|, 1
  {
    var c := b + [p];
    assert c[..|c| - 1] == b;
    if |a| > 0 && a[|a| - 1] == p {
      SubsequenceDropLast(a, b);
    }
  }

  lemma {:induction false} SubsequenceDropLast(a: seq<Point>, b: seq<Point>)
    requires |a| > 0 && IsSubsequence(a, b)
    ensures IsSubsequence(a[..|a| - 1], b)
    decreases |a| + |b|, 0
  {
    var a' := a[..|a| - 1];
    if |b| > 0 {
      var b' := b[..|b| - 1];
      if a[|a| - 1] == b[|b| - 1] {
        SubsequenceExtend(a', b', b[|b| - 1]);
        assert b' + [b[|b| - 1]] == b;
      } else {
        SubsequenceDropLast(a, b');
        SubsequenceExtend(a', b', b[|b| - 1]);
        assert b' + [b[|b| - 1]] == b;
      }
    }
  }

  /** Empty input gives empty output; the first input point is always kept,
      as the first output point. */
  lemma {:induction false} DedupeKeepsFirst(coords: seq<Point>)
    ensures |coords| == 0 ==> Dedupe(coords) == []
    ensures |coords| > 0 ==> |Dedupe(coords)| > 0 && Dedupe(coords)[0] == coords[0]
  {
    if |coords| > 1 {
      var init := coords[..|coords| - 1];
      DedupeKeepsFirst(init);
      assert init[0] == coords[0];
    }
  }

  /** Deduplicating twice is deduplicating once. */
  lemma DedupeIdempotent(coords: seq<Point>)
    ensures Dedupe(Dedupe(coords)) == Dedupe(coords)
  {
    DedupeKeepsChanges(coords);
    NoDuplicatesFixed(Dedupe(coords));
  }

  lemma {:induction false} NoDuplicatesFixed(s: seq<Point>)
    requires NoAdjacentDuplicates(s)
    ensures Dedupe(s) == s
  {
    if |s| > 0 {
      var init := s[..|s| - 1];
      NoDuplicatesFixed(init);
      if |s| > 1 {
        assert s[|s| - 1] != s[|s| - 2];
      }
      assert init + [s[|s| - 1]] == s;
    }
  }

  /** `render_track_map_href` up to the renderer: no points or an empty image
      size are refused before anything is drawn. */
  function RenderTrackMapHref(backend: MapBackend, coords: seq<Point>, w: nat, h: nat, color: Option<Color>): (r: Result<string>)
    ensures |coords| == 0 || w == 0 || h == 0 ==> r.Failure?
  {
    if |coords| == 0 then Failure("error building map: no coordinates")
    else if w == 0 || h == 0 then Failure("error building map: invalid image size")
    else backend(Dedupe(coords), w, h, color)
  }

  /** `render_track_map_href`: the guards as early returns, then the
      deduplicated points go to the renderer. */
  method RenderTrackMap(backend: MapBackend, coords: seq<Point>, w: nat, h: nat, color: Option<Color>)
    returns (r: Result<string>)
    ensures r == RenderTrackMapHref(backend, coords, w, h, color)
    ensures |coords| > 0 && w > 0 && h > 0 ==>
      exists pts :: r == backend(pts, w, h, color) && NoAdjacentDuplicates(pts) && IsSubsequence(pts, coords)
  {
    if |coords| == 0 {
      return Failure("error building map: no coordinates");
    }
    if w == 0 || h == 0 {
      return Failure("error building map: invalid image size");
    }
    var pts := DedupeConsecutiveCoords(coords);
    DedupeKeepsChanges(coords);
    DedupeSubsequence(coords);
    r := backend(pts, w, h, color);
  }
}
