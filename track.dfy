/** The track analysis of bicit-cli/src/context.rs: the statistics `load`
    folds over the decimated point pairs of a GPX file, the resolution of
    the track name and the keyed text values of `get_string`. The loop that
    performs the fold is `Contexts.Context.Load`. */
module Track {
  import opened Base
  import opened Text
  import opened Numbers
  import opened Hhmmss
  import opened MapRender

  /** A GPX waypoint: latitude, longitude, optional elevation and optional
      timestamp in whole seconds. */
  datatype Waypoint = Waypoint(lat: real, lon: real, elevation: Option<real>, time: Option<int>)

  /** `Waypoint::point`: x is the longitude, y the latitude. */
  function PointOf(w: Waypoint): Point {
    Point(w.lon, w.lat)
  }

  datatype GpxTrack = GpxTrack(name: Option<string>, segments: seq<seq<Waypoint>>)

  datatype Gpx = Gpx(tracks: seq<GpxTrack>)

  /** The geodesic distance between two points, in metres: any function that
      is never negative. */
  type Geodesic = f: (Point, Point) -> real | forall p: Point, q: Point :: f(p, q) >= 0.0
    witness (p: Point, q: Point) => 0.0

  /** The length of one segment: the distances of its consecutive points. */
  function SegmentLength(geo: Geodesic, pts: seq<Waypoint>): (r: real)
    ensures r >= 0.0
  {
    if |pts| < 2 then 0.0
    else SegmentLength(geo, pts[..|pts| - 1]) + geo(PointOf(pts[|pts| - 2]), PointOf(pts[|pts| - 1]))
  }

  /** `Geodesic.length` of a track's multi-line-string. */
  function TrackLength(geo: Geodesic, segs: seq<seq<Waypoint>>): (r: real)
    ensures r >= 0.0
  {
    if |segs| == 0 then 0.0 else TrackLength(geo, segs[..|segs| - 1]) + SegmentLength(geo, segs[|segs| - 1])
  }

  /** `tot_distance`: the lengths of all tracks. */
  function TotalLength(geo: Geodesic, tracks: seq<GpxTrack>): (r: real)
    ensures r >= 0.0
  {
    if |tracks| == 0 then 0.0
    else TotalLength(geo, tracks[..|tracks| - 1]) + TrackLength(geo, tracks[|tracks| - 1].segments)
  }

  type Pair = (Waypoint, Waypoint)

  /** The pairs `step_by(10)` zipped with `step_by(10).skip(1)`: the points
      at indices 10k and 10k + 10, and only those. */
  function DecimatedPairs(pts: seq<Waypoint>): (r: seq<Pair>)
    ensures |r| == if |pts| == 0 then 0 else (|pts| - 1) / 10
    ensures forall k :: 0 <= k < |r| ==> r[k] == (pts[10 * k], pts[10 * k + 10])
  {
    if |pts| <= 10 then []
    else
      var rest := DecimatedPairs(pts[10..]);
      assert forall k :: 1 <= k < |rest| + 1 ==> rest[k - 1] == (pts[10 * k], pts[10 * k + 10]) by {
        forall k | 1 <= k < |rest| + 1
          ensures rest[k - 1] == (pts[10 * k], pts[10 * k + 10])
        {
          assert 10 * (k - 1) + 10 == 10 * k;
        }
      }
      [(pts[0], pts[10])] + rest
  }

  /** One elevation-profile sample: elevation `e` at cumulative distance `d`. */
  datatype ElevPoint = ElevPoint(e: real, d: real)

  /** The accumulators of `load`. */
  datatype Stats = Stats(
    curDistance: real,
    totTime: int,
    movingTime: int,
    uphill: real,
    downhill: real,
    speedMax: real,
    elevationMax: real,
    elevationMin: real,
    profile: seq<ElevPoint>)

  /** Their initial values. */
  const Start := Stats(0.0, 0, 0, 0.0, 0.0, 0.0, 0.0, 99999.0, [])

  /** Both points carry a timestamp and the second is at least a whole second later. */
  predicate Counted(w1: Waypoint, w2: Waypoint) {
    w1.time.Some? && w2.time.Some? && w2.time.value - w1.time.value > 0
  }

  /** The whole seconds between two counted waypoints, positive so that a
      speed can be taken over them. */
  function Seconds(w1: Waypoint, w2: Waypoint): (secs: int)
    requires Counted(w1, w2)
    ensures secs > 0
  {
    w2.time.value - w1.time.value
  }

  /** km/h from metres (rounded to the nearest metre, halves away from zero)
      over seconds. */
  function Speed(metres: real, secs: int): real
    requires secs > 0
  {
    RoundHalfAway(metres) as real / secs as real * 3.6
  }

  function PairSpeed(geo: Geodesic, w1: Waypoint, w2: Waypoint): real
    requires Counted(w1, w2)
  {
    Speed(geo(PointOf(w1), PointOf(w2)), Seconds(w1, w2))
  }

  predicate HasElevations(w1: Waypoint, w2: Waypoint) {
    w1.elevation.Some? && w2.elevation.Some?
  }

  /** The time part of one step: total time, moving time (speed above
      0.5 km/h) and the largest speed. */
  function TimeStep(geo: Geodesic, s: Stats, w1: Waypoint, w2: Waypoint): Stats {
    if Counted(w1, w2) then
      var secs := Seconds(w1, w2);
      var speed := PairSpeed(geo, w1, w2);
      s.(totTime := s.totTime + secs,
         movingTime := if speed > 0.5 then s.movingTime + secs else s.movingTime,
         speedMax := if speed > s.speedMax then speed else s.speedMax)
    else s
  }

  /** The elevation part of one step, after the distance has been added. */
  function ElevationStep(s: Stats, w1: Waypoint, w2: Waypoint): Stats {
    if HasElevations(w1, w2) then
      var e1 := w1.elevation.value;
      var de := w2.elevation.value - e1;
      s.(uphill := if de > 0.0 then s.uphill + de else s.uphill,
         downhill := if de > 0.0 then s.downhill else s.downhill - de,
         elevationMax := if e1 > s.elevationMax then e1 else s.elevationMax,
         elevationMin := if e1 < s.elevationMin then e1 else s.elevationMin,
         profile := s.profile + [ElevPoint(e1, s.curDistance)])
    else s
  }

  /** The body of the pair loop of `load`. */
  function Step(geo: Geodesic, s: Stats, p: Pair): Stats {
    var d := geo(PointOf(p.0), PointOf(p.1));
    var timed := TimeStep(geo, s, p.0, p.1);
    ElevationStep(timed.(curDistance := s.curDistance + d), p.0, p.1)
  }

  /** The accumulators after the given pairs, in order, from `s`. */
  function FoldFrom(geo: Geodesic, s: Stats, pairs: seq<Pair>): Stats {
    if |pairs| == 0 then s else Step(geo, FoldFrom(geo, s, pairs[..|pairs| - 1]), pairs[|pairs| - 1])
  }

  /** The accumulators after the given pairs, from their initial values. */
  function Fold(geo: Geodesic, pairs: seq<Pair>): Stats {
    FoldFrom(geo, Start, pairs)
  }

  /** Folding two runs of pairs one after the other is folding them joined. */
  lemma {:induction false} FoldFromAppend(geo: Geodesic, s: Stats, a: seq<Pair>, b: seq<Pair>)
    ensures FoldFrom(geo, s, a + b) == FoldFrom(geo, FoldFrom(geo, s, a), b)
  {
    if |b| > 0 {
      FoldFromAppend(geo, s, a, b[..|b| - 1]);
      assert (a + b)[..|a + b| - 1] == a + b[..|b| - 1];
    } else {
      assert a + b == a;
    }
  }

  // Reference sums over the pairs, one term per pair.

  function TimeSum(pairs: seq<Pair>): int {
    if |pairs| == 0 then 0
    else
      var p := pairs[|pairs| - 1];
      TimeSum(pairs[..|pairs| - 1]) + if Counted(p.0, p.1) then Seconds(p.0, p.1) else 0
  }

  function MovingSum(geo: Geodesic, pairs: seq<Pair>): int {
    if |pairs| == 0 then 0
    else
      var p := pairs[|pairs| - 1];
      MovingSum(geo, pairs[..|pairs| - 1])
        + if Counted(p.0, p.1) && PairSpeed(geo, p.0, p.1) > 0.5 then Seconds(p.0, p.1) else 0
  }

  function DistanceSum(geo: Geodesic, pairs: seq<Pair>): real {
    if |pairs| == 0 then 0.0
    else
      var p := pairs[|pairs| - 1];
      DistanceSum(geo, pairs[..|pairs| - 1]) + geo(PointOf(p.0), PointOf(p.1))
  }

  /** The net climb: the elevation differences of the pairs that have both elevations. */
  function ClimbSum(pairs: seq<Pair>): real {
    if |pairs| == 0 then 0.0
    else
      var p := pairs[|pairs| - 1];
      ClimbSum(pairs[..|pairs| - 1])
        + if HasElevations(p.0, p.1) then p.1.elevation.value - p.0.elevation.value else 0.0
  }

  /** The first elevations of the pairs that have both elevations, in order. */
  function PairElevations(pairs: seq<Pair>): seq<real> {
    if |pairs| == 0 then []
    else
      var p := pairs[|pairs| - 1];
      PairElevations(pairs[..|pairs| - 1]) + if HasElevations(p.0, p.1) then [p.0.elevation.value] else []
  }

  /** The climb: the positive elevation differences. */
  function UphillSum(pairs: seq<Pair>): real {
    if |pairs| == 0 then 0.0
    else
      var p := pairs[|pairs| - 1];
      UphillSum(pairs[..|pairs| - 1])
        + if HasElevations(p.0, p.1) && p.1.elevation.value - p.0.elevation.value > 0.0
          then p.1.elevation.value - p.0.elevation.value else 0.0
  }

  /** The descent: the other elevation differences, negated. */
  function DownhillSum(pairs: seq<Pair>): real {
    if |pairs| == 0 then 0.0
    else
      var p := pairs[|pairs| - 1];
      DownhillSum(pairs[..|pairs| - 1])
        + if HasElevations(p.0, p.1) && p.1.elevation.value - p.0.elevation.value <= 0.0
          then p.0.elevation.value - p.1.elevation.value else 0.0
  }

  /** The largest of `floor` and the values. */
  function Highest(floor: real, xs: seq<real>): (r: real)
    ensures r >= floor && forall i :: 0 <= i < |xs| ==> xs[i] <= r
    ensures r == floor || exists i :: 0 <= i < |xs| && r == xs[i]
  {
    if |xs| == 0 then floor
    else
      var m := Highest(floor, xs[..|xs| - 1]);
      assert forall i :: 0 <= i < |xs| - 1 ==> xs[..|xs| - 1][i] == xs[i];
      if xs[|xs| - 1] > m then xs[|xs| - 1] else m
  }

  /** The smallest of `ceiling` and the values. */
  function Lowest(ceiling: real, xs: seq<real>): (r: real)
    ensures r <= ceiling && forall i :: 0 <= i < |xs| ==> r <= xs[i]
    ensures r == ceiling || exists i :: 0 <= i < |xs| && r == xs[i]
  {
    if |xs| == 0 then ceiling
    else
      var m := Lowest(ceiling, xs[..|xs| - 1]);
      assert forall i :: 0 <= i < |xs| - 1 ==> xs[..|xs| - 1][i] == xs[i];
      if xs[|xs| - 1] < m then xs[|xs| - 1] else m
  }

  /** The profile samples: for each pair with both elevations, its first
      elevation at the distance covered up to and including that pair. */
  function PairSamples(geo: Geodesic, pairs: seq<Pair>): seq<ElevPoint> {
    if |pairs| == 0 then []
    else
      var p := pairs[|pairs| - 1];
      PairSamples(geo, pairs[..|pairs| - 1])
        + if HasElevations(p.0, p.1) then [ElevPoint(p.0.elevation.value, DistanceSum(geo, pairs))] else []
  }

  function SampleElevations(profile: seq<ElevPoint>): (r: seq<real>)
    ensures |r| == |profile|
    ensures forall i :: 0 <= i < |r| ==> r[i] == profile[i].e
  {
    if |profile| == 0 then [] else SampleElevations(profile[..|profile| - 1]) + [profile[|profile| - 1].e]
  }

  /** The accumulators are the reference sums: only timed pairs at least a
      second apart add time, moving time adds only the pairs faster than
      0.5 km/h, uphill minus downhill is the net climb, and a profile sample
      is appended exactly for the pairs where both points have an elevation. */
  lemma {:induction false} FoldTotals(geo: Geodesic, pairs: seq<Pair>)
    ensures Fold(geo, pairs).totTime == TimeSum(pairs)
    ensures Fold(geo, pairs).movingTime == MovingSum(geo, pairs)
    ensures Fold(geo, pairs).curDistance == DistanceSum(geo, pairs)
    ensures Fold(geo, pairs).uphill - Fold(geo, pairs).downhill == ClimbSum(pairs)
    ensures SampleElevations(Fold(geo, pairs).profile) == PairElevations(pairs)
  {
    if |pairs| > 0 {
      var init := pairs[..|pairs| - 1];
      FoldTotals(geo, init);
      var p := pairs[|pairs| - 1];
      StepTotals(geo, Fold(geo, init), p);
    }
  }

  /** Uphill and downhill are the climb and descent sums, the largest and
      smallest elevations are taken over the first elevations of the pairs
      with both elevations (from 0 and 99999), and each profile sample is
      that elevation at the distance covered through its pair. */
  lemma FoldElevations(geo: Geodesic, pairs: seq<Pair>)
    ensures Fold(geo, pairs).uphill == UphillSum(pairs)
    ensures Fold(geo, pairs).downhill == DownhillSum(pairs)
    ensures Fold(geo, pairs).elevationMax == Highest(0.0, PairElevations(pairs))
    ensures Fold(geo, pairs).elevationMin == Lowest(99999.0, PairElevations(pairs))
    ensures Fold(geo, pairs).profile == PairSamples(geo, pairs)
  {
    FoldClimb(geo, pairs);
    FoldExtremes(geo, pairs);
    FoldSamples(geo, pairs);
  }

  lemma {:induction false} FoldClimb(geo: Geodesic, pairs: seq<Pair>)
    ensures Fold(geo, pairs).uphill == UphillSum(pairs)
    ensures Fold(geo, pairs).downhill == DownhillSum(pairs)
  {
    if |pairs| > 0 {
      var init := pairs[..|pairs| - 1];
      FoldClimb(geo, init);
      StepClimb(geo, Fold(geo, init), pairs[|pairs| - 1]);
    }
  }

  lemma StepClimb(geo: Geodesic, s: Stats, p: Pair)
    ensures Step(geo, s, p).uphill == s.uphill
      + if HasElevations(p.0, p.1) && p.1.elevation.value - p.0.elevation.value > 0.0
        then p.1.elevation.value - p.0.elevation.value else 0.0
    ensures Step(geo, s, p).downhill == s.downhill
      + if HasElevations(p.0, p.1) && p.1.elevation.value - p.0.elevation.value <= 0.0
        then p.0.elevation.value - p.1.elevation.value else 0.0
  {
  }

  lemma {:induction false} FoldExtremes(geo: Geodesic, pairs: seq<Pair>)
    ensures Fold(geo, pairs).elevationMax == Highest(0.0, PairElevations(pairs))
    ensures Fold(geo, pairs).elevationMin == Lowest(99999.0, PairElevations(pairs))
  {
    if |pairs| > 0 {
      var init := pairs[..|pairs| - 1];
      var p := pairs[|pairs| - 1];
      FoldExtremes(geo, init);
      var xs := PairElevations(init);
      assert PairElevations(pairs) == xs + if HasElevations(p.0, p.1) then [p.0.elevation.value] else [];
      StepExtremes(geo, Fold(geo, init), p, xs);
    }
  }

  lemma StepExtremes(geo: Geodesic, s: Stats, p: Pair, xs: seq<real>)
    requires s.elevationMax == Highest(0.0, xs) && s.elevationMin == Lowest(99999.0, xs)
    ensures var ys := xs + if HasElevations(p.0, p.1) then [p.0.elevation.value] else [];
      Step(geo, s, p).elevationMax == Highest(0.0, ys) && Step(geo, s, p).elevationMin == Lowest(99999.0, ys)
  {
    if HasElevations(p.0, p.1) {
      var ys := xs + [p.0.elevation.value];
      assert ys[..|ys| - 1] == xs;
    } else {
      assert xs + [] == xs;
    }
  }

  lemma {:induction false} FoldSamples(geo: Geodesic, pairs: seq<Pair>)
    ensures Fold(geo, pairs).profile == PairSamples(geo, pairs)
  {
    if |pairs| > 0 {
      var init := pairs[..|pairs| - 1];
      var p := pairs[|pairs| - 1];
      var s := Fold(geo, init);
      FoldSamples(geo, init);
      FoldTotals(geo, init);
      assert DistanceSum(geo, pairs) == s.curDistance + geo(PointOf(p.0), PointOf(p.1));
      StepSample(geo, s, p);
    }
  }

  lemma StepSample(geo: Geodesic, s: Stats, p: Pair)
    ensures Step(geo, s, p).profile == s.profile
      + if HasElevations(p.0, p.1)
        then [ElevPoint(p.0.elevation.value, s.curDistance + geo(PointOf(p.0), PointOf(p.1)))] else []
  {
  }

  /** What one step adds to each accumulator. */
  lemma StepTotals(geo: Geodesic, s: Stats, p: Pair)
    ensures Step(geo, s, p).totTime == s.totTime + if Counted(p.0, p.1) then Seconds(p.0, p.1) else 0
    ensures Step(geo, s, p).movingTime == s.movingTime
      + if Counted(p.0, p.1) && PairSpeed(geo, p.0, p.1) > 0.5 then Seconds(p.0, p.1) else 0
    ensures Step(geo, s, p).curDistance == s.curDistance + geo(PointOf(p.0), PointOf(p.1))
    ensures Step(geo, s, p).uphill - Step(geo, s, p).downhill == s.uphill - s.downhill
      + if HasElevations(p.0, p.1) then p.1.elevation.value - p.0.elevation.value else 0.0
    ensures SampleElevations(Step(geo, s, p).profile) == SampleElevations(s.profile)
      + if HasElevations(p.0, p.1) then [p.0.elevation.value] else []
  {
    var t := Step(geo, s, p);
    if HasElevations(p.0, p.1) {
      assert t.profile == s.profile + [ElevPoint(p.0.elevation.value, t.curDistance)];
      assert SampleElevations(t.profile) == SampleElevations(s.profile) + [p.0.elevation.value];
    } else {
      assert t.profile == s.profile;
    }
  }

  /** What holds of the accumulators at every point of the fold. */
  predicate Consistent(s: Stats) {
    && 0 <= s.movingTime <= s.totTime
    && s.uphill >= 0.0 && s.downhill >= 0.0
    && s.speedMax >= 0.0
    && s.curDistance >= 0.0
    && (forall i :: 0 <= i < |s.profile| ==> s.elevationMin <= s.profile[i].e <= s.elevationMax)
    && (forall i, j :: 0 <= i <= j < |s.profile| ==> s.profile[i].d <= s.profile[j].d)
    && (forall i :: 0 <= i < |s.profile| ==> s.profile[i].d <= s.curDistance)
  }

  lemma StepConsistent(geo: Geodesic, s: Stats, p: Pair)
    requires Consistent(s)
    ensures Consistent(Step(geo, s, p))
  {
    var d := geo(PointOf(p.0), PointOf(p.1));
    assert d >= 0.0;
  }

  /** Moving time never exceeds total time, uphill, downhill and the largest
      speed are never negative, every profile sample lies between the
      smallest and the largest elevation, and sample distances never
      decrease. */
  lemma {:induction false} FoldConsistent(geo: Geodesic, pairs: seq<Pair>)
    ensures Consistent(Fold(geo, pairs))
  {
    if |pairs| > 0 {
      FoldConsistent(geo, pairs[..|pairs| - 1]);
      StepConsistent(geo, Fold(geo, pairs[..|pairs| - 1]), pairs[|pairs| - 1]);
    }
  }

  /** `speed_max` is at least every counted pair's speed, and is either 0 or
      one of them. */
  lemma {:induction false} SpeedMaxIsLargest(geo: Geodesic, pairs: seq<Pair>)
    ensures forall k :: 0 <= k < |pairs| && Counted(pairs[k].0, pairs[k].1) ==>
      PairSpeed(geo, pairs[k].0, pairs[k].1) <= Fold(geo, pairs).speedMax
    ensures Fold(geo, pairs).speedMax == 0.0 ||
      exists k :: 0 <= k < |pairs| && Counted(pairs[k].0, pairs[k].1) &&
        Fold(geo, pairs).speedMax == PairSpeed(geo, pairs[k].0, pairs[k].1)
  {
    if |pairs| > 0 {
      var init := pairs[..|pairs| - 1];
      SpeedMaxIsLargest(geo, init);
      var s := Fold(geo, init);
      var t := Fold(geo, pairs);
      var p := pairs[|pairs| - 1];
      assert t.speedMax >= s.speedMax;
      forall k | 0 <= k < |pairs| && Counted(pairs[k].0, pairs[k].1)
        ensures PairSpeed(geo, pairs[k].0, pairs[k].1) <= t.speedMax
      {
        if k < |init| {
          assert pairs[k] == init[k];
        }
      }
      if t.speedMax != s.speedMax {
        assert t.speedMax == PairSpeed(geo, p.0, p.1);
      } else if s.speedMax != 0.0 {
        var k :| 0 <= k < |init| && Counted(init[k].0, init[k].1) && s.speedMax == PairSpeed(geo, init[k].0, init[k].1);
        assert pairs[k] == init[k];
      }
    }
  }

  /** The pairs of consecutive segments, in order. */
  function SegmentPairs(segs: seq<seq<Waypoint>>): seq<Pair> {
    if |segs| == 0 then [] else SegmentPairs(segs[..|segs| - 1]) + DecimatedPairs(segs[|segs| - 1])
  }

  /** The pairs of all tracks, in order. */
  function TrackPairs(tracks: seq<GpxTrack>): seq<Pair> {
    if |tracks| == 0 then []
    else TrackPairs(tracks[..|tracks| - 1]) + SegmentPairs(tracks[|tracks| - 1].segments)
  }

  function PointsOf(pts: seq<Waypoint>): (r: seq<Point>)
    ensures |r| == |pts|
    ensures forall i :: 0 <= i < |pts| ==> r[i] == PointOf(pts[i])
  {
    if |pts| == 0 then [] else PointsOf(pts[..|pts| - 1]) + [PointOf(pts[|pts| - 1])]
  }

  function SegmentPoints(segs: seq<seq<Waypoint>>): seq<Point> {
    if |segs| == 0 then [] else SegmentPoints(segs[..|segs| - 1]) + PointsOf(segs[|segs| - 1])
  }

  /** `coords`: every raw point of every segment of every track, in order. */
  function TrackPoints(tracks: seq<GpxTrack>): seq<Point> {
    if |tracks| == 0 then []
    else TrackPoints(tracks[..|tracks| - 1]) + SegmentPoints(tracks[|tracks| - 1].segments)
  }

  /** The average speed in km/h: 0 when there is no time to divide by. */
  function AverageSpeed(distance: real, secs: int): (r: real)
    ensures secs <= 0 ==> r == 0.0
    ensures distance >= 0.0 ==> r >= 0.0
  {
    if secs > 0 then Speed(distance, secs) else 0.0
  }

  /** `ContextData`. Durations are whole seconds. */
  datatype ContextData = ContextData(
    trackName: string,
    distance: real,
    speed: real,
    speedMax: real,
    speedMoving: real,
    time: int,
    timeMoving: int,
    uphill: real,
    downhill: real,
    elevation: seq<ElevPoint>,
    elevationMax: real,
    elevationMin: real,
    coords: seq<Point>)

  /** What `load` stores for a parsed GPX file. */
  function Analyze(geo: Geodesic, gpx: Gpx, filename: string): ContextData {
    var s := Fold(geo, TrackPairs(gpx.tracks));
    var distance := TotalLength(geo, gpx.tracks);
    ContextData(
      ComputeTrackName(gpx, filename), distance,
      AverageSpeed(distance, s.totTime), s.speedMax, AverageSpeed(distance, s.movingTime),
      s.totTime, s.movingTime, s.uphill, s.downhill,
      s.profile, s.elevationMax, s.elevationMin,
      TrackPoints(gpx.tracks))
  }

  /** What holds of every loaded `ContextData`. */
  predicate DataConsistent(d: ContextData) {
    && 0 <= d.timeMoving <= d.time
    && d.distance >= 0.0
    && d.speed >= 0.0 && d.speedMoving >= 0.0 && d.speedMax >= 0.0
    && d.uphill >= 0.0 && d.downhill >= 0.0
    && |d.trackName| > 0
    && (forall i :: 0 <= i < |d.elevation| ==> d.elevationMin <= d.elevation[i].e <= d.elevationMax)
    && (forall i, j :: 0 <= i <= j < |d.elevation| ==> d.elevation[i].d <= d.elevation[j].d)
  }

  lemma AnalyzeConsistent(geo: Geodesic, gpx: Gpx, filename: string)
    ensures DataConsistent(Analyze(geo, gpx, filename))
  {
    FoldConsistent(geo, TrackPairs(gpx.tracks));
  }

  lemma QuotientShrinks(a: real, b: real, c: real)
    requires a >= 0.0 && 0.0 < c <= b
    ensures a / b <= a / c
  {
    assert a / b * b == a;
    assert a / c * c == a;
    assert a / b * c <= a / b * b;
  }

  /** Once some time counts as moving, the moving average speed is never
      below the overall average speed. */
  lemma MovingSpeedAtLeastAverage(geo: Geodesic, gpx: Gpx, filename: string)
    ensures Analyze(geo, gpx, filename).timeMoving > 0 ==>
      Analyze(geo, gpx, filename).speed <= Analyze(geo, gpx, filename).speedMoving
  {
    var d := Analyze(geo, gpx, filename);
    FoldConsistent(geo, TrackPairs(gpx.tracks));
    if d.timeMoving > 0 {
      var m := RoundHalfAway(d.distance) as real;
      assert m >= 0.0;
      assert d.time >= d.timeMoving;
      QuotientShrinks(m, d.time as real, d.timeMoving as real);
      assert d.speed == m / d.time as real * 3.6;
      assert d.speedMoving == m / d.timeMoving as real * 3.6;
    }
  }

  // Name resolution.

  /** `truncate_ellipsis`, counting characters. */
  function TruncateEllipsis(s: string, maxChars: nat): (r: string)
    ensures maxChars == 0 ==> r == ""
    ensures |s| <= maxChars ==> r == s
    ensures |s| > maxChars > 0 ==> |r| == maxChars && r[..maxChars - 1] == s[..maxChars - 1] && r[maxChars - 1] == '…'
    ensures |r| <= maxChars && |r| <= |s|
  {
    if maxChars == 0 then ""
    else if |s| <= maxChars then s
    else s[..maxChars - 1] + "…"
  }

  /** Truncating a second time changes nothing. */
  lemma TruncateIdempotent(s: string, maxChars: nat)
    ensures TruncateEllipsis(TruncateEllipsis(s, maxChars), maxChars) == TruncateEllipsis(s, maxChars)
  {
  }

  /** The pieces of a path that `Path::components` reports as normal names:
      empty pieces and "." are normalised away. */
  function NormalPieces(parts: seq<string>): (r: seq<string>)
    ensures forall k :: 0 <= k < |r| ==> r[k] != "" && r[k] != "." && r[k] in parts
  {
    if |parts| == 0 then []
    else
      var init := NormalPieces(parts[..|parts| - 1]);
      var last := parts[|parts| - 1];
      if last == "" || last == "." then init else init + [last]
  }

  /** `Path::file_name` of a '/'-separated path: its last component, unless
      that is "..", the root or "." alone. */
  function FileName(path: string): (r: Option<string>)
    ensures r.Some? ==> r.value != "" && r.value != "." && r.value != ".." && NoMatch(r.value, OnChar('/'))
  {
    var parts := Split(path, OnChar('/'));
    var comps := NormalPieces(parts);
    if |comps| == 0 || comps[|comps| - 1] == ".." then None
    else
      assert comps[|comps| - 1] in parts;
      Some(comps[|comps| - 1])
  }

  /** Position of the last '.', if any. */
  function LastDot(name: string): (r: Option<nat>)
    ensures r.Some? ==> r.value < |name| && name[r.value] == '.'
    ensures r.Some? ==> forall j :: r.value < j < |name| ==> name[j] != '.'
    ensures r.None? ==> forall j :: 0 <= j < |name| ==> name[j] != '.'
  {
    if |name| == 0 then None
    else if name[|name| - 1] == '.' then Some(|name| - 1)
    else LastDot(name[..|name| - 1])
  }

  /** The stem of a file name: what comes before its last '.', except that a
      name whose only leading '.' is its last one is its own stem. */
  function StemOf(name: string): (r: string)
    ensures |name| > 0 ==> |r| > 0
  {
    match LastDot(name)
    case None => name
    case Some(i) => if i == 0 then name else name[..i]
  }

  /** `Path::file_stem`. */
  function FileStem(path: string): (r: Option<string>)
    ensures r.Some? ==> |r.value| > 0
  {
    match FileName(path)
    case None => None
    case Some(name) => Some(StemOf(name))
  }

  /** The name of the first track that has a name at all (`find_map`). */
  function FirstName(tracks: seq<GpxTrack>): (r: Option<string>)
    ensures r.Some? ==> exists k :: 0 <= k < |tracks| && tracks[k].name == r
    ensures r.None? ==> forall k :: 0 <= k < |tracks| ==> tracks[k].name.None?
  {
    if |tracks| == 0 then None
    else if tracks[0].name.Some? then tracks[0].name
    else
      var r := FirstName(tracks[1..]);
      assert forall k :: 1 <= k < |tracks| ==> tracks[k] == tracks[1..][k - 1];
      r
  }

  /** The name taken from the file when no track supplies one. */
  function FallbackName(filename: string): (r: string)
    ensures |r| > 0
  {
    match FileStem(filename)
    case Some(stem) => stem
    case None => "track"
  }

  /** `compute_track_name`. */
  function ComputeTrackName(gpx: Gpx, filename: string): (r: string)
    ensures |r| > 0
  {
    var named := FirstName(gpx.tracks);
    if named.Some? && Trim(named.value) != "" then TruncateEllipsis(Trim(named.value), 32)
    else FallbackName(filename)
  }

  /** The first track with a name decides: a non-blank name is used, trimmed
      and cut to 32 characters, whatever later tracks are called. */
  lemma {:induction false} FirstNamedTrackWins(gpx: Gpx, filename: string, k: nat, name: string)
    requires k < |gpx.tracks| && gpx.tracks[k].name == Some(name)
    requires forall j :: 0 <= j < k ==> gpx.tracks[j].name.None?
    ensures FirstName(gpx.tracks) == Some(name)
    ensures Trim(name) != "" ==> ComputeTrackName(gpx, filename) == TruncateEllipsis(Trim(name), 32)
    ensures Trim(name) == "" ==> ComputeTrackName(gpx, filename) == FallbackName(filename)
  {
    FirstNameAt(gpx.tracks, k, name);
  }

  lemma {:induction false} FirstNameAt(tracks: seq<GpxTrack>, k: nat, name: string)
    requires k < |tracks| && tracks[k].name == Some(name)
    requires forall j :: 0 <= j < k ==> tracks[j].name.None?
    ensures FirstName(tracks) == Some(name)
  {
    if k > 0 {
      FirstNameAt(tracks[1..], k - 1, name);
    }
  }

  /** A file name with one extension has the part before it as its stem. */
  lemma FileStemOneExtension(stem: string, ext: string)
    requires |stem| > 0 && NoMatch(stem, OnChar('/')) && NoMatch(stem, OnChar('.'))
    requires NoMatch(ext, OnChar('/')) && NoMatch(ext, OnChar('.'))
    ensures FileStem(stem + "." + ext) == Some(stem)
  {
    var path := stem + "." + ext;
    assert NoMatch(path, OnChar('/')) by {
      assert forall j :: 0 <= j < |path| ==> path[j] == '.' || path[j] in stem || path[j] in ext;
    }
    assert FirstMatch(path, OnChar('/')) == |path|;
    assert Split(path, OnChar('/')) == [path];
    assert NormalPieces([path]) == [path] by {
      assert path != "" && path != "." by {
        assert |path| >= 2;
      }
      var none: seq<string> := [];
      assert [path][..0] == none;
    }
    assert path != ".." by {
      assert path[0] == stem[0] && stem[0] != '.';
    }
    assert FileName(path) == Some(path);
    assert path[|stem|] == '.';
    var dot := LastDot(path);
    assert dot.Some?;
    assert dot.value == |stem|;
    assert path[..|stem|] == stem;
  }

  /** Without a named track, "foo_bar.gpx" gives "foo_bar". The texts here
      and in the other anchors are parameters fixed by `requires`, so that the
      verifier reasons about the pieces rather than unfolding the functions on
      a literal. */
  lemma StemAnchor(gpx: Gpx, filename: string)
    requires gpx == Gpx([]) && filename == "foo_bar.gpx"
    ensures ComputeTrackName(gpx, filename) == "foo_bar"
  {
    var stem, ext := "foo_bar", "gpx";
    assert filename == stem + "." + ext;
    FileStemOneExtension(stem, ext);
  }

  /** A track name longer than 32 characters without surrounding blanks is cut
      to 31 characters and an ellipsis. */
  lemma LongNameTruncated(name: string, filename: string)
    requires |name| > 32 && !IsWhitespace(name[0]) && !IsWhitespace(name[|name| - 1])
    ensures |ComputeTrackName(Gpx([GpxTrack(Some(name), [])]), filename)| == 32
    ensures ComputeTrackName(Gpx([GpxTrack(Some(name), [])]), filename)[31] == '…'
    ensures ComputeTrackName(Gpx([GpxTrack(Some(name), [])]), filename)[..31] == name[..31]
  {
    var gpx := Gpx([GpxTrack(Some(name), [])]);
    FirstNamedTrackWins(gpx, filename, 0, name);
    TrimNoop(name);
    assert Trim(name) != "";
    var r := TruncateEllipsis(name, 32);
    assert ComputeTrackName(gpx, filename) == r;
    assert |r| == 32 && r[31] == '…' && r[..31] == name[..31];
  }

  /** The 36-character name of the source's test comes out as 32 characters
      ending in an ellipsis. */
  lemma TruncationAnchor(name: string)
    requires name == "abcdefghijklmnopqrstuvwxyz0123456789"
    ensures |ComputeTrackName(Gpx([GpxTrack(Some(name), [])]), "x.gpx")| == 32
    ensures ComputeTrackName(Gpx([GpxTrack(Some(name), [])]), "x.gpx")[31] == '…'
  {
    LongNameTruncated(name, "x.gpx");
  }

  // Keyed text values.

  const StringKeys: set<string> := {
    "value_track_name", "value_distance", "value_speed", "value_speed_max",
    "value_speed_moving", "value_uphill", "value_downhill", "value_elevation_max",
    "value_elevation_min", "value_time", "value_moving_time"}

  /** `get_string`: a text value for each of the eleven known keys once data
      is loaded, nothing otherwise. */
  function GetString(data: Option<ContextData>, k: string): (r: Option<string>)
    ensures r.Some? <==> data.Some? && k in StringKeys
  {
    if data.None? then None
    else
      var d := data.value;
      if k == "value_track_name" then Some(d.trackName)
      else if k == "value_distance" then Some(FormatFixed0(d.distance / 1000.0) + "km")
      else if k == "value_speed" then Some(FormatFixed1(d.speed) + "km/h")
      else if k == "value_speed_max" then Some(FormatFixed1(d.speedMax) + "km/h")
      else if k == "value_speed_moving" then Some(FormatFixed1(d.speedMoving) + "km/h")
      else if k == "value_uphill" then Some(FormatFixed0(d.uphill) + "m")
      else if k == "value_downhill" then Some(FormatFixed0(d.downhill) + "m")
      else if k == "value_elevation_max" then Some(FormatFixed0(d.elevationMax) + "m")
      else if k == "value_elevation_min" then Some(FormatFixed0(d.elevationMin) + "m")
      else if k == "value_time" then Some(GetHhmmss(d.time))
      else if k == "value_moving_time" then Some(GetHhmmss(d.timeMoving))
      else None
  }

  /** A distance between 21.5 and 22.5 km reads "22km". */
  lemma DistanceAnchor(d: ContextData, k: string)
    requires 21500.0 <= d.distance <= 22500.0 && k == "value_distance"
    ensures GetString(Some(d), k) == Some("22km")
  {
    var x := d.distance / 1000.0;
    var n := RoundHalfEven(x);
    assert n == 22 by {
      assert 21.5 <= x <= 22.5;
    }
    assert NatToString(22) == "22" by {
      assert NatToString(2) == "2";
    }
    assert Abs(x) == x && Sign(x) == "";
    assert FormatFixed0(x) == "22";
    assert GetString(Some(d), k) == Some(FormatFixed0(x) + "km");
    assert "22" + "km" == "22km";
  }

  /** The loaded duration reads back as the whole seconds it holds. */
  lemma TimeValueReadsBack(geo: Geodesic, gpx: Gpx, filename: string, k: string)
    requires k == "value_time" || k == "value_moving_time"
    ensures GetString(Some(Analyze(geo, gpx, filename)), k).Some?
    ensures ParseHhmmss(GetString(Some(Analyze(geo, gpx, filename)), k).value) ==
      Some(if k == "value_time" then Analyze(geo, gpx, filename).time else Analyze(geo, gpx, filename).timeMoving)
  {
    var d := Analyze(geo, gpx, filename);
    AnalyzeConsistent(geo, gpx, filename);
    if k == "value_time" {
      HhmmssRoundTrip(d.time);
    } else {
      HhmmssRoundTrip(d.timeMoving);
    }
  }
}
