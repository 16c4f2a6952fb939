/** `Context` of bicit-cli/src/context.rs: the loaded track data, the
    elevation path built from it and the memoised map image. The statistics
    themselves are specified in module `Track`. */
module Contexts {
  import opened Base
  import opened Text
  import opened Colors
  import opened MapRender
  import opened Track
  import opened InputPaths
  import opened Numbers

  // The map image cache.

  /** The three `RefCell`s of the cache: href, pixel size and track colour
      of the last successful render. */
  datatype MapCache = MapCache(href: Option<string>, size: Option<(nat, nat)>, color: Option<Color>)

  const EmptyCache := MapCache(None, None, None)

  /** A render is needed when there is no href, the size differs or the colour differs. */
  predicate NeedsRender(c: MapCache, w: nat, h: nat, color: Option<Color>) {
    c.href.None? || c.size != Some((w, h)) || c.color != color
  }

  /** `get_image` on a cache: the value it returns and the cache after it. */
  function ImageLookup(backend: MapBackend, data: Option<ContextData>, c: MapCache,
                       k: string, w: nat, h: nat, color: Option<Color>): (r: (Option<string>, MapCache))
    ensures data.None? ==> r == (None, c)
    ensures r.0.Some? ==> k == "image_map" && r.0 == r.1.href
    ensures r.1 == c || (r.1 == MapCache(r.1.href, Some((w, h)), color) && r.1.href.Some?)
    ensures r.0.Some? ==> !NeedsRender(r.1, w, h, color)
    ensures data.Some? && !NeedsRender(c, w, h, color) ==> r == (if k == "image_map" then c.href else None, c)
    ensures data.Some? && NeedsRender(c, w, h, color) &&
            RenderTrackMapHref(backend, data.value.coords, w, h, color).Failure? ==>
              r == (None, c)
  {
    if data.None? then (None, c)
    else if NeedsRender(c, w, h, color) then
      match RenderTrackMapHref(backend, data.value.coords, w, h, color)
      case Failure(_) => (None, c)
      case Success(href) =>
        (if k == "image_map" then Some(href) else None, MapCache(Some(href), Some((w, h)), color))
    else (if k == "image_map" then c.href else None, c)
  }

  /** The cache evolves the same way whatever key is asked for. */
  lemma LookupCacheIgnoresKey(backend: MapBackend, data: Option<ContextData>, c: MapCache,
                              k1: string, k2: string, w: nat, h: nat, color: Option<Color>)
    ensures ImageLookup(backend, data, c, k1, w, h, color).1 == ImageLookup(backend, data, c, k2, w, h, color).1
  {
  }

  /** After a lookup, the same request again renders nothing new: it returns
      the same value and leaves the cache as it is. */
  lemma LookupIdempotent(backend: MapBackend, data: Option<ContextData>, c: MapCache,
                         k: string, w: nat, h: nat, color: Option<Color>)
    ensures var r := ImageLookup(backend, data, c, k, w, h, color);
      ImageLookup(backend, data, r.1, k, w, h, color) == r
  {
  }

  /** Once a render succeeds, the cache holds the new href with the size and
      colour asked for, and a request for "image_map" returns that href. */
  lemma LookupAfterRender(backend: MapBackend, d: ContextData, c: MapCache, k: string, w: nat, h: nat,
                          color: Option<Color>, href: string)
    requires NeedsRender(c, w, h, color)
    requires RenderTrackMapHref(backend, d.coords, w, h, color) == Success(href)
    ensures ImageLookup(backend, Some(d), c, k, w, h, color).1 == MapCache(Some(href), Some((w, h)), color)
    ensures ImageLookup(backend, Some(d), c, k, w, h, color).0 == if k == "image_map" then Some(href) else None
    ensures !NeedsRender(ImageLookup(backend, Some(d), c, k, w, h, color).1, w, h, color)
  {
  }

  /** A cleared cache renders again on any request. */
  lemma EmptyCacheRenders(w: nat, h: nat, color: Option<Color>)
    ensures NeedsRender(EmptyCache, w, h, color)
  {
  }

  // The elevation path.

  /** `(elevation_max - elevation_min).max(100.0)`. */
  function ElevationWidth(d: ContextData): (r: real)
    ensures r >= 100.0 && r >= d.elevationMax - d.elevationMin
  {
    if d.elevationMax - d.elevationMin > 100.0 then d.elevationMax - d.elevationMin else 100.0
  }

  /** `inp.length / d.distance`; a zero distance gives scale 0. */
  function HorizontalScale(d: ContextData, inp: InputPath): real {
    if d.distance == 0.0 then 0.0 else inp.length / d.distance
  }

  /** A profile sample placed in the box of the template path. */
  function Place(d: ContextData, inp: InputPath, p: ElevPoint): (real, real) {
    (p.d * HorizontalScale(d, inp), (p.e - d.elevationMin) * (inp.height / ElevationWidth(d)))
  }

  function Placed(d: ContextData, inp: InputPath): (r: seq<(real, real)>)
    ensures |r| == |d.elevation|
    ensures forall i :: 0 <= i < |r| ==> r[i] == Place(d, inp, d.elevation[i])
  {
    seq(|d.elevation|, i requires 0 <= i < |d.elevation| => Place(d, inp, d.elevation[i]))
  }

  /** The point before position `i`: the origin for the first one. */
  function Previous(pts: seq<(real, real)>, i: nat): (real, real)
    requires i <= |pts|
  {
    if i == 0 then (0.0, 0.0) else pts[i - 1]
  }

  /** The move from `a` to `b`. */
  function Delta(a: (real, real), b: (real, real)): (real, real) {
    (b.0 - a.0, b.1 - a.1)
  }

  /** The relative moves that visit the points in turn from the origin. */
  function Moves(pts: seq<(real, real)>): (r: seq<(real, real)>)
    ensures |r| == |pts|
    ensures forall i {:trigger r[i]} :: 0 <= i < |r| ==> r[i] == Delta(Previous(pts, i), pts[i])
  {
    if |pts| == 0 then []
    else
      var init := pts[..|pts| - 1];
      assert forall i :: 0 <= i < |init| ==> Previous(pts, i) == Previous(init, i);
      Moves(init) + [Delta(Previous(pts, |pts| - 1), pts[|pts| - 1])]
  }

  /** The text of one move, `format!("l {} {}", dx, dy)`. */
  function MoveText(display: real -> string, m: (real, real)): string {
    "l " + display(m.0) + " " + display(m.1)
  }

  function MoveTexts(display: real -> string, ms: seq<(real, real)>): (r: seq<string>)
    ensures |r| == |ms|
    ensures forall i :: 0 <= i < |r| ==> r[i] == MoveText(display, ms[i])
  {
    seq(|ms|, i requires 0 <= i < |ms| => MoveText(display, ms[i]))
  }

  /** The height of the last placed point, 0 when there is none. */
  function LastHeight(pts: seq<(real, real)>): real {
    Previous(pts, |pts|).1
  }

  /** The `d` attribute `get_path` produces: the prefix and start token of
      the template path, the moves through the profile and a final vertical
      move back to the start height. */
  function PathText(d: ContextData, inp: InputPath, display: real -> string): string {
    var pts := Placed(d, inp);
    inp.prefix + " " + inp.ss + " " + JoinWith(MoveTexts(display, Moves(pts)), " ")
      + " l 0 " + display(-LastHeight(pts))
  }

  /** `get_path`: only "path_elevation" with data loaded gives a path. */
  function PathFor(data: Option<ContextData>, k: string, inp: InputPath, display: real -> string): (r: Option<string>)
    ensures r.Some? <==> k == "path_elevation" && data.Some?
  {
    if k == "path_elevation" && data.Some? then Some(PathText(data.value, inp, display)) else None
  }

  function SumX(ms: seq<(real, real)>): real {
    if |ms| == 0 then 0.0 else SumX(ms[..|ms| - 1]) + ms[|ms| - 1].0
  }

  function SumY(ms: seq<(real, real)>): real {
    if |ms| == 0 then 0.0 else SumY(ms[..|ms| - 1]) + ms[|ms| - 1].1
  }

  /** The moves add up to the last point: the path ends where the profile
      ends. */
  lemma {:induction false} MovesTelescope(pts: seq<(real, real)>)
    ensures SumX(Moves(pts)) == Previous(pts, |pts|).0
    ensures SumY(Moves(pts)) == Previous(pts, |pts|).1
  {
    if |pts| > 0 {
      var init := pts[..|pts| - 1];
      MovesTelescope(init);
      var m := Moves(pts);
      var n := |pts|;
      assert m[..n - 1] == Moves(init);
      assert Previous(init, n - 1) == Previous(pts, n - 1);
      assert m[n - 1] == Delta(Previous(pts, n - 1), pts[n - 1]);
      assert SumX(m) == SumX(m[..n - 1]) + m[n - 1].0;
      assert SumY(m) == SumY(m[..n - 1]) + m[n - 1].1;
    }
  }

  /** With the final "l 0 -last" the vertical moves cancel: the path closes
      at the height it started from. */
  lemma PathClosesVertically(d: ContextData, inp: InputPath)
    ensures SumY(Moves(Placed(d, inp))) + -LastHeight(Placed(d, inp)) == 0.0
  {
    MovesTelescope(Placed(d, inp));
  }

  lemma FractionWithin(a: real, w: real, h: real)
    requires 0.0 <= a <= w && w > 0.0
    ensures h >= 0.0 ==> 0.0 <= a * (h / w) <= h
    ensures h < 0.0 ==> h <= a * (h / w) <= 0.0
  {
    var f := a / w;
    assert 0.0 <= f <= 1.0;
    assert a * (h / w) == f * h;
  }

  /** For loaded data every placed height lies between the bottom of the box
      and its top, because the divisor is at least the elevation range. */
  lemma ProfileFitsBox(d: ContextData, inp: InputPath, i: nat)
    requires DataConsistent(d) && i < |d.elevation|
    ensures inp.height >= 0.0 ==> 0.0 <= Placed(d, inp)[i].1 <= inp.height
    ensures inp.height < 0.0 ==> inp.height <= Placed(d, inp)[i].1 <= 0.0
  {
    FractionWithin(d.elevation[i].e - d.elevationMin, ElevationWidth(d), inp.height);
  }

  /** With a non-negative path length the profile never moves backwards. */
  lemma ProfileMovesForward(d: ContextData, inp: InputPath, i: nat, j: nat)
    requires DataConsistent(d) && i <= j < |d.elevation|
    requires inp.length >= 0.0
    ensures Placed(d, inp)[i].0 <= Placed(d, inp)[j].0
  {
    var s := HorizontalScale(d, inp);
    assert s >= 0.0;
    assert d.elevation[i].d <= d.elevation[j].d;
    assert d.elevation[i].d * s <= d.elevation[j].d * s;
  }

  /** `s.points.iter().for_each(|f| coords.push(f.point()))`. */
  method PushPoints(coords: seq<Point>, pts: seq<Waypoint>) returns (out: seq<Point>)
    ensures out == coords + PointsOf(pts)
  {
    out := coords;
    var j := 0;
    while j < |pts|
      invariant 0 <= j <= |pts|
      invariant out == coords + PointsOf(pts[..j])
    {
      assert pts[..j + 1][..j] == pts[..j];
      out := out + [PointOf(pts[j])];
      j := j + 1;
    }
    assert pts[..j] == pts;
  }

  /** The loop guard `10 * k + 10 < len` holds exactly while pairs remain. */
  lemma PairIndex(pts: seq<Waypoint>, k: nat)
    ensures (10 * k + 10 < |pts|) == (k < |DecimatedPairs(pts)|)
  {
    if |pts| > 0 {
      var q := (|pts| - 1) / 10;
      assert 10 * q <= |pts| - 1 < 10 * q + 10;
      if k < q {
        assert 10 * k + 10 <= 10 * q;
      } else {
        assert 10 * k + 10 >= 10 * q + 10;
      }
    }
  }

  /** One turn of the pair loop of `load`: distance, then time and speed
      when both points are timed and a second or more apart, then climb and
      a profile sample when both points have an elevation. */
  method AccumulatePair(geo: Geodesic, s0: Stats, w1: Waypoint, w2: Waypoint) returns (s: Stats)
    ensures s == Step(geo, s0, (w1, w2))
  {
    var curDistance, totTime, totMovingTime := s0.curDistance, s0.totTime, s0.movingTime;
    var uphill, downhill, speedMax := s0.uphill, s0.downhill, s0.speedMax;
    var elevationMax, elevationMin, elev := s0.elevationMax, s0.elevationMin, s0.profile;
    var d := geo(PointOf(w1), PointOf(w2));
    curDistance := curDistance + d;
    if w1.time.Some? && w2.time.Some? {
      var ptime := w2.time.value - w1.time.value;
      if ptime > 0 {
        totTime := totTime + ptime;
        var speed := Speed(d, ptime);
        if speed > 0.5 {
          totMovingTime := totMovingTime + ptime;
        }
        if speed > speedMax {
          speedMax := speed;
        }
      }
    }
    ghost var mid := TimeStep(geo, s0, w1, w2).(curDistance := s0.curDistance + d);
    assert Stats(curDistance, totTime, totMovingTime, uphill, downhill, speedMax,
                 elevationMax, elevationMin, elev) == mid;
    if w1.elevation.Some? {
      if w2.elevation.Some? {
        var e1 := w1.elevation.value;
        var de := w2.elevation.value - e1;
        if de > 0.0 {
          uphill := uphill + de;
        } else {
          downhill := downhill - de;
        }
        if e1 > elevationMax {
          elevationMax := e1;
        }
        if e1 < elevationMin {
          elevationMin := e1;
        }
        elev := elev + [ElevPoint(e1, curDistance)];
      }
    }
    s := Stats(curDistance, totTime, totMovingTime, uphill, downhill, speedMax,
               elevationMax, elevationMin, elev);
    assert s == ElevationStep(mid, w1, w2);
  }

  /** The inner loop of `load` over the decimated pairs of one segment: the
      accumulators are updated one pair at a time. */
  method AccumulatePairs(geo: Geodesic, pts: seq<Waypoint>, s0: Stats) returns (s: Stats)
    ensures s == FoldFrom(geo, s0, DecimatedPairs(pts))
  {
    s := s0;
    ghost var decimated := DecimatedPairs(pts);
    assert decimated[..0] == [];
    var k := 0;
    while 10 * k + 10 < |pts|
      invariant 0 <= k <= |decimated|
      invariant s == FoldFrom(geo, s0, decimated[..k])
    {
      PairIndex(pts, k);
      ghost var next := decimated[..k + 1];
      assert next[..|next| - 1] == decimated[..k];
      assert next[|next| - 1] == (pts[10 * k], pts[10 * k + 10]);
      s := AccumulatePair(geo, s, pts[10 * k], pts[10 * k + 10]);
      k := k + 1;
    }
    PairIndex(pts, k);
    assert decimated[..k] == decimated;
  }

  /** The loop of `load` over the segments of one track: each segment's
      points are copied and its decimated pairs folded in. */
  method AddSegments(geo: Geodesic, segs: seq<seq<Waypoint>>, coords0: seq<Point>, s0: Stats)
    returns (coords: seq<Point>, stats: Stats)
    ensures coords == coords0 + SegmentPoints(segs)
    ensures stats == FoldFrom(geo, s0, SegmentPairs(segs))
  {
    coords, stats := coords0, s0;
    var si := 0;
    assert segs[..0] == [];
    while si < |segs|
      invariant 0 <= si <= |segs|
      invariant coords == coords0 + SegmentPoints(segs[..si])
      invariant stats == FoldFrom(geo, s0, SegmentPairs(segs[..si]))
    {
      var pts := segs[si];
      assert segs[..si + 1][..si] == segs[..si];
      coords := PushPoints(coords, pts);
      FoldFromAppend(geo, s0, SegmentPairs(segs[..si]), DecimatedPairs(pts));
      stats := AccumulatePairs(geo, pts, stats);
      si := si + 1;
    }
    assert segs[..si] == segs;
  }

  /** `Context`: the file name, the loaded data and the map cache. The
      distance function, the map renderer and the `{}` formatting of `f64`
      are fixed when the context is made. */
  class Context {
    const filename: string
    const geo: Geodesic
    const backend: MapBackend
    const display: real -> string
    var data: Option<ContextData>
    var mapHref: Option<string>
    var mapSize: Option<(nat, nat)>
    var mapTrackColor: Option<Color>

    function Cache(): MapCache
      reads this`mapHref, this`mapSize, this`mapTrackColor
    {
      MapCache(mapHref, mapSize, mapTrackColor)
    }

    /** `Context::new`: nothing loaded, nothing cached. */
    constructor (filename: string, geo: Geodesic, backend: MapBackend, display: real -> string)
      ensures this.filename == filename && this.geo == geo
      ensures this.backend == backend && this.display == display
      ensures data.None? && Cache() == EmptyCache
    {
      this.filename := filename;
      this.geo := geo;
      this.backend := backend;
      this.display := display;
      data := None;
      mapHref := None;
      mapSize := None;
      mapTrackColor := None;
    }

    /** `cleanup_temp_files`: all three cache cells are emptied. */
    method CleanupTempFiles()
      modifies this
      ensures Cache() == EmptyCache && data == old(data)
    {
      mapHref := None;
      mapSize := None;
      mapTrackColor := None;
    }

    /** `build_map`: render and store href, size and colour together, or
        fail and leave the cache alone. */
    method BuildMap(w: nat, h: nat, color: Option<Color>) returns (r: Result<()>)
      modifies this
      ensures data == old(data)
      ensures data.None? ==> r.Failure? && Cache() == old(Cache())
      ensures data.Some? ==>
        match RenderTrackMapHref(backend, data.value.coords, w, h, color)
        case Failure(e) => r == Failure(e) && Cache() == old(Cache())
        case Success(href) => r == Success(()) && Cache() == MapCache(Some(href), Some((w, h)), color)
    {
      if data.None? {
        return Failure("error building map: missing track data");
      }
      var href := RenderTrackMap(backend, data.value.coords, w, h, color);
      if href.Failure? {
        return Failure(href.error);
      }
      mapHref := Some(href.value);
      mapSize := Some((w, h));
      mapTrackColor := color;
      return Success(());
    }

    /** `get_image`: render when the cache does not match the request, then
        answer "image_map" with the cached href. */
    method GetImage(k: string, w: nat, h: nat, color: Option<Color>) returns (r: Option<string>)
      modifies this
      ensures data == old(data)
      ensures (r, Cache()) == ImageLookup(backend, data, old(Cache()), k, w, h, color)
    {
      if data.None? {
        return None;
      }
      var needsRender := mapHref.None? || mapSize.None? || mapSize.value != (w, h) || mapTrackColor != color;
      if needsRender {
        var built := BuildMap(w, h, color);
        if built.Failure? {
          return None;
        }
      }
      if k == "image_map" {
        r := mapHref;
      } else {
        r := None;
      }
    }

    /** `get_path`: the profile is walked once, each sample placed in the
        box and written as a move from the previous one. */
    method GetPath(k: string, inp: InputPath) returns (r: Option<string>)
      ensures r == PathFor(data, k, inp, display)
    {
      if k != "path_elevation" || data.None? {
        return None;
      }
      var d := data.value;
      var oldD, oldE := 0.0, 0.0;
      ghost var pts := Placed(d, inp);
      ghost var texts := MoveTexts(display, Moves(pts));
      var parts: seq<string> := [];
      var i := 0;
      while i < |d.elevation|
        invariant 0 <= i <= |d.elevation|
        invariant parts == texts[..i]
        invariant (oldD, oldE) == Previous(pts, i)
      {
        var (x, y) := Place(d, inp, d.elevation[i]);
        assert texts[i] == MoveText(display, Delta((oldD, oldE), (x, y)));
        assert texts[..i + 1] == texts[..i] + [texts[i]];
        parts := parts + ["l " + display(x - oldD) + " " + display(y - oldE)];
        oldD, oldE := x, y;
        i := i + 1;
      }
      assert parts == texts;
      r := Some(inp.prefix + " " + inp.ss + " " + JoinWith(parts, " ") + " l 0 " + display(-oldE));
    }

    /** `load`: a missing or unreadable file is an error and changes nothing;
        otherwise the statistics of all decimated pairs, all raw points and
        the total length are stored. */
    method Load(source: Result<Gpx>) returns (r: Result<()>)
      modifies this
      ensures Cache() == old(Cache())
      ensures source.Failure? ==> r == Failure(source.error) && data == old(data)
      ensures source.Success? ==> r == Success(()) && data == Some(Analyze(geo, source.value, filename))
    {
      if source.Failure? {
        return Failure(source.error);
      }
      var gpx := source.value;
      var totDistance := 0.0;
      var stats := Start;
      var coords: seq<Point> := [];
      var trackName := ComputeTrackName(gpx, filename);
      var ti := 0;
      while ti < |gpx.tracks|
        invariant 0 <= ti <= |gpx.tracks|
        invariant totDistance == TotalLength(geo, gpx.tracks[..ti])
        invariant coords == TrackPoints(gpx.tracks[..ti])
        invariant stats == Fold(geo, TrackPairs(gpx.tracks[..ti]))
        invariant Cache() == old(Cache())
      {
        var t := gpx.tracks[ti];
        assert gpx.tracks[..ti + 1][..ti] == gpx.tracks[..ti];
        totDistance := totDistance + TrackLength(geo, t.segments);
        FoldFromAppend(geo, Start, TrackPairs(gpx.tracks[..ti]), SegmentPairs(t.segments));
        coords, stats := AddSegments(geo, t.segments, coords, stats);
        ti := ti + 1;
      }
      assert gpx.tracks[..ti] == gpx.tracks;
      var speed := if stats.totTime > 0 then Speed(totDistance, stats.totTime) else 0.0;
      var speedMoving := if stats.movingTime > 0 then Speed(totDistance, stats.movingTime) else 0.0;
      data := Some(ContextData(trackName, totDistance, speed, stats.speedMax, speedMoving,
                               stats.totTime, stats.movingTime, stats.uphill, stats.downhill,
                               stats.profile, stats.elevationMax, stats.elevationMin, coords));
      return Success(());
    }
  }
}
