/** Arc-length resampling of a coastline polyline (`segmentShoreline` with its inner
    `interpolate`, and `extractSegmentPaths` in src/utils/shorelineAnalytics.ts). Both
    operations measure cumulative distance along the polyline, cut it into `n` pieces
    of equal arc length and place the cut points by linear interpolation of lat/lng
    inside the polyline edge that contains them. */
module Resample {
  import opened Numeric
  import opened Geodesy
  import opened StableSort

  /** `Math.max(1, Math.round(segmentCount))`: the number of pieces asked for. */
  function SegmentCount(count: real): (n: nat)
    ensures n >= 1
    ensures n == 1 || n == Round(count)
    ensures Round(count) >= 1 ==> n == Round(count)
  {
    if Round(count) >= 1 then Round(count) else 1
  }

  // ---------------------------------------------------------------------------
  // Cumulative distance

  /** `cumDist`: the distance travelled along the polyline up to each vertex. */
  function Cumulative(poly: seq<LatLng>, dist: Distance): (cum: seq<real>)
    requires |poly| >= 1
    ensures |cum| == |poly|
    ensures cum[0] == 0.0
    decreases |poly|
  {
    if |poly| == 1 then [0.0]
    else
      var prefix := Cumulative(poly[..|poly| - 1], dist);
      prefix + [prefix[|prefix| - 1] + dist(poly[|poly| - 2], poly[|poly| - 1])]
  }

  /** `cumDist[cumDist.length - 1]`: the arc length of the whole polyline. */
  function TotalLength(poly: seq<LatLng>, dist: Distance): real
    requires |poly| >= 1
  {
    Cumulative(poly, dist)[|poly| - 1]
  }

  /** Each entry adds the length of the edge that ends at its vertex to the previous
      entry: `cumDist[i] = cumDist[i - 1] + haversineMeters(polyline[i - 1], polyline[i])`. */
  lemma {:induction false} CumulativeStep(poly: seq<LatLng>, dist: Distance, i: nat)
    requires 1 <= i < |poly|
    ensures Cumulative(poly, dist)[i] == Cumulative(poly, dist)[i - 1] + dist(poly[i - 1], poly[i])
    decreases |poly|
  {
    var n := |poly|;
    var front := poly[..n - 1];
    var prefix := Cumulative(front, dist);
    assert Cumulative(poly, dist) == prefix + [prefix[n - 2] + dist(poly[n - 2], poly[n - 1])];
    if i < n - 1 {
      CumulativeStep(front, dist, i);
      assert front[i - 1] == poly[i - 1] && front[i] == poly[i];
    }
  }

  /** Cumulative distance never decreases along the polyline and starts at 0. */
  lemma {:induction false} CumulativeMonotone(poly: seq<LatLng>, dist: Distance, i: nat, j: nat)
    requires i <= j < |poly|
    ensures 0.0 <= Cumulative(poly, dist)[i] <= Cumulative(poly, dist)[j]
    decreases j
  {
    if j > 0 {
      if i < j {
        CumulativeMonotone(poly, dist, i, j - 1);
      } else {
        CumulativeMonotone(poly, dist, 0, j - 1);
      }
      CumulativeStep(poly, dist, j);
    }
  }

  /** The arc length is never negative. */
  lemma TotalLengthNonNegative(poly: seq<LatLng>, dist: Distance)
    requires |poly| >= 1
    ensures TotalLength(poly, dist) >= 0.0
  {
    CumulativeMonotone(poly, dist, 0, |poly| - 1);
  }

  /** The distance table `interpolate` works from: one entry per vertex, starting at 0,
      never decreasing. */
  predicate DistanceTable(poly: seq<LatLng>, cum: seq<real>)
  {
    && |poly| >= 2 && |cum| == |poly| && cum[0] == 0.0
    && (forall i, j :: 0 <= i <= j < |cum| ==> cum[i] <= cum[j])
  }

  /** The distances along a polyline of two or more vertices form such a table. */
  lemma CumulativeIsTable(poly: seq<LatLng>, dist: Distance)
    requires |poly| >= 2
    ensures DistanceTable(poly, Cumulative(poly, dist))
  {
    forall i, j | 0 <= i <= j < |poly|
      ensures Cumulative(poly, dist)[i] <= Cumulative(poly, dist)[j]
    {
      CumulativeMonotone(poly, dist, i, j);
    }
  }

  // ---------------------------------------------------------------------------
  // Interpolation

  /** The loop `for (i = 1; ...) if (cumDist[i] >= d) ...`: the first vertex from `i`
      on whose cumulative distance reaches `d`. */
  function FirstReaching(cum: seq<real>, d: real, i: nat): (k: nat)
    requires 1 <= i < |cum|
    requires cum[|cum| - 1] >= d
    ensures i <= k < |cum|
    ensures cum[k] >= d
    ensures forall j :: i <= j < k ==> cum[j] < d
    decreases |cum| - i
  {
    if cum[i] >= d then i else FirstReaching(cum, d, i + 1)
  }

  /** Where a target distance falls: on the edge from vertex `edge - 1` to `edge`, at
      fraction `t` of it. */
  datatype Location = Location(edge: nat, t: real)

  /** The clamped distance `Math.max(0, Math.min(totalLength, dist))`. */
  function ClampDistance(cum: seq<real>, target: real): (d: real)
    requires |cum| >= 1 && cum[|cum| - 1] >= 0.0
    ensures 0.0 <= d <= cum[|cum| - 1]
    ensures 0.0 <= target <= cum[|cum| - 1] ==> d == target
  {
    Max(0.0, Min(cum[|cum| - 1], target))
  }

  /** Locates the clamped target distance on the first edge whose end reaches it. */
  function Locate(cum: seq<real>, target: real): (loc: Location)
    requires |cum| >= 2 && cum[0] == 0.0 && cum[|cum| - 1] >= 0.0
    ensures 1 <= loc.edge < |cum|
    ensures 0.0 <= loc.t <= 1.0
    ensures cum[loc.edge - 1] <= ClampDistance(cum, target) <= cum[loc.edge]
    ensures forall j :: 1 <= j < loc.edge ==> cum[j] < ClampDistance(cum, target)
    ensures cum[loc.edge] > cum[loc.edge - 1] ==>
      ClampDistance(cum, target) == cum[loc.edge - 1] + loc.t * (cum[loc.edge] - cum[loc.edge - 1])
    ensures cum[loc.edge] <= cum[loc.edge - 1] ==> loc.t == 0.0
    ensures ClampDistance(cum, target) == cum[loc.edge - 1] ==> loc.t == 0.0
    ensures cum[loc.edge] > cum[loc.edge - 1] && ClampDistance(cum, target) == cum[loc.edge] ==> loc.t == 1.0
  {
    var d := ClampDistance(cum, target);
    var k := FirstReaching(cum, d, 1);
    var segLen := cum[k] - cum[k - 1];
    if segLen > 0.0 then
      EdgeFraction(cum[k - 1], cum[k], d);
      Location(k, (d - cum[k - 1]) / segLen)
    else
      Location(k, 0.0)
  }

  /** The fraction of the way from `lo` to `hi` at which `d` lies. */
  lemma EdgeFraction(lo: real, hi: real, d: real)
    requires lo < hi && lo <= d <= hi
    ensures var t := (d - lo) / (hi - lo);
      && 0.0 <= t <= 1.0
      && d == lo + t * (hi - lo)
      && (d == lo ==> t == 0.0)
      && (d == hi ==> t == 1.0)
  {
    DivAtMostOne(d - lo, hi - lo);
    DivNonNegative(d - lo, hi - lo);
    DivMul(d - lo, hi - lo);
    if d == hi {
      DivSelf(hi - lo);
    }
  }

  /** `interpolate(dist)`: the point at arc length `target` (clamped to the polyline). */
  function InterpolateAt(poly: seq<LatLng>, cum: seq<real>, target: real): (p: LatLng)
    requires DistanceTable(poly, cum)
  {
    var loc := Locate(cum, target);
    Lerp(poly[loc.edge - 1], poly[loc.edge], loc.t)
  }

  /** Arc length 0 is the first vertex itself. */
  lemma InterpolateAtStart(poly: seq<LatLng>, cum: seq<real>)
    requires DistanceTable(poly, cum)
    ensures InterpolateAt(poly, cum, 0.0) == poly[0]
  {
    var loc := Locate(cum, 0.0);
    assert cum[0] <= cum[1] && cum[0] <= cum[|cum| - 1];
    assert ClampDistance(cum, 0.0) == 0.0;
    assert loc.edge == 1;
  }

  /** When the last edge has positive length, the full arc length is the last vertex. */
  lemma InterpolateAtEnd(poly: seq<LatLng>, dist: Distance)
    requires |poly| >= 2
    requires dist(poly[|poly| - 2], poly[|poly| - 1]) > 0.0
    ensures DistanceTable(poly, Cumulative(poly, dist))
    ensures InterpolateAt(poly, Cumulative(poly, dist), TotalLength(poly, dist)) == poly[|poly| - 1]
  {
    var cum := Cumulative(poly, dist);
    var last := |poly| - 1;
    CumulativeIsTable(poly, dist);
    CumulativeStep(poly, dist, last);
    var loc := Locate(cum, cum[last]);
    assert ClampDistance(cum, cum[last]) == cum[last];
    assert cum[last - 1] < cum[last];
    assert loc.edge == last;
  }

  // ---------------------------------------------------------------------------
  // segmentShoreline

  /** The arc length `i * segLength` at which piece `i` starts, written as a running sum. */
  function Cut(segLength: real, i: nat): (d: real)
  {
    if i == 0 then 0.0 else Cut(segLength, i - 1) + segLength
  }

  /** The running sum is the product `i * segLength`. */
  lemma {:induction false} CutIsProduct(segLength: real, i: nat)
    ensures Cut(segLength, i) == i as real * segLength
  {
    if i > 0 {
      CutIsProduct(segLength, i - 1);
    }
  }

  /** With positive piece length, later pieces start no earlier than earlier ones end. */
  lemma {:induction false} CutMonotone(segLength: real, i: nat, j: nat)
    requires segLength > 0.0
    requires i <= j
    ensures Cut(segLength, i) <= Cut(segLength, j)
    decreases j
  {
    if i < j {
      CutMonotone(segLength, i, j - 1);
    }
  }

  /** `ShorelineSegment` */
  datatype Segment = Segment(index: nat, start: LatLng, end: LatLng, midpoint: LatLng, lengthMeters: real)

  /** The fallback segment: zero length, every point at `pt`. */
  function PointSegment(pt: LatLng): (s: Segment)
    ensures s.index == 0 && s.lengthMeters == 0.0
    ensures s.start == pt && s.end == pt && s.midpoint == pt
  {
    Segment(0, pt, pt, pt, 0.0)
  }

  /** The `i`-th of the equal pieces of length `segLength`. */
  function SegmentAt(poly: seq<LatLng>, cum: seq<real>, segLength: real, i: nat): (s: Segment)
    requires DistanceTable(poly, cum)
    ensures s.index == i && s.lengthMeters == segLength
    ensures s.start == InterpolateAt(poly, cum, Cut(segLength, i))
    ensures s.end == InterpolateAt(poly, cum, Cut(segLength, i + 1))
    ensures s.midpoint == Midpoint(s.start, s.end)
  {
    var start := InterpolateAt(poly, cum, Cut(segLength, i));
    var end := InterpolateAt(poly, cum, Cut(segLength, i + 1));
    Segment(i, start, end, Midpoint(start, end), segLength)
  }

  /** The `n` equal pieces of length `segLength`. */
  function Pieces(poly: seq<LatLng>, cum: seq<real>, segLength: real, n: nat): (segs: seq<Segment>)
    requires DistanceTable(poly, cum)
    ensures |segs| == n
    ensures forall i :: 0 <= i < n ==> segs[i] == SegmentAt(poly, cum, segLength, i)
  {
    seq(n, i requires 0 <= i < n => SegmentAt(poly, cum, segLength, i))
  }

  /** Consecutive pieces meet: each ends where the next starts. */
  lemma PiecesMeet(poly: seq<LatLng>, cum: seq<real>, segLength: real, n: nat)
    requires DistanceTable(poly, cum)
    ensures forall i :: 0 <= i < n - 1 ==>
      Pieces(poly, cum, segLength, n)[i].end == Pieces(poly, cum, segLength, n)[i + 1].start
  {
    var segs := Pieces(poly, cum, segLength, n);
    forall i | 0 <= i < n - 1
      ensures segs[i].end == segs[i + 1].start
    {
      var a, b := SegmentAt(poly, cum, segLength, i), SegmentAt(poly, cum, segLength, i + 1);
      assert segs[i] == a && segs[i + 1] == b;
      assert a.end == InterpolateAt(poly, cum, Cut(segLength, i + 1));
    }
  }

  /** The polyline is long enough to be cut: two or more vertices and positive length. */
  predicate Cuttable(poly: seq<LatLng>, dist: Distance)
  {
    |poly| >= 2 && TotalLength(poly, dist) > 0.0
  }

  /** `segmentShoreline(polyline, segmentCount)` */
  function SegmentShoreline(poly: seq<LatLng>, count: real, dist: Distance): (segs: seq<Segment>)
    ensures |segs| >= 1
    ensures |poly| == 0 ==> segs == [PointSegment(Origin)]
    ensures |poly| >= 1 && !Cuttable(poly, dist) ==> segs == [PointSegment(poly[0])]
    ensures Cuttable(poly, dist) ==> |segs| == SegmentCount(count)
    ensures forall i :: 0 <= i < |segs| ==> segs[i].index == i
    ensures forall i :: 0 <= i < |segs| ==> segs[i].midpoint == Midpoint(segs[i].start, segs[i].end)
    ensures Cuttable(poly, dist) ==> forall i :: 0 <= i < |segs| ==>
      segs[i].lengthMeters == TotalLength(poly, dist) / |segs| as real
    ensures |poly| >= 1 ==> segs[0].start == poly[0]
    ensures forall i :: 0 <= i < |segs| - 1 ==> segs[i].end == segs[i + 1].start
  {
    if |poly| < 2 then
      [PointSegment(if |poly| == 0 then Origin else poly[0])]
    else
      var n := SegmentCount(count);
      var cum := Cumulative(poly, dist);
      TotalLengthNonNegative(poly, dist);
      var total := cum[|cum| - 1];
      if total == 0.0 then
        [PointSegment(poly[0])]
      else
        CumulativeIsTable(poly, dist);
        InterpolateAtStart(poly, cum);
        PiecesMeet(poly, cum, total / n as real, n);
        Pieces(poly, cum, total / n as real, n)
  }

  /** A cuttable polyline is cut into `SegmentCount(count)` equal pieces. */
  lemma SegmentShorelineIsPieces(poly: seq<LatLng>, count: real, dist: Distance)
    requires Cuttable(poly, dist)
    ensures DistanceTable(poly, Cumulative(poly, dist))
    ensures SegmentShoreline(poly, count, dist) == Pieces(poly, Cumulative(poly, dist),
      TotalLength(poly, dist) / SegmentCount(count) as real, SegmentCount(count))
  {
    CumulativeIsTable(poly, dist);
  }

  /** `segments.reduce((s, seg) => s + seg.lengthMeters, 0)` */
  function LengthSum(segs: seq<Segment>): real
  {
    if |segs| == 0 then 0.0 else LengthSum(segs[..|segs| - 1]) + segs[|segs| - 1].lengthMeters
  }

  /** Pieces of one common length `c` add up to `|segs| * c`. */
  lemma {:induction false} LengthSumEqual(segs: seq<Segment>, c: real)
    requires forall i :: 0 <= i < |segs| ==> segs[i].lengthMeters == c
    ensures LengthSum(segs) == |segs| as real * c
  {
    if |segs| > 0 {
      LengthSumEqual(segs[..|segs| - 1], c);
    }
  }

  /** `n` pieces of length `total / n` add up to `total`. */
  lemma LengthSumShares(segs: seq<Segment>, total: real)
    requires |segs| >= 1
    requires forall i :: 0 <= i < |segs| ==> segs[i].lengthMeters == total / |segs| as real
    ensures LengthSum(segs) == total
  {
    var n := |segs| as real;
    LengthSumEqual(segs, total / n);
    DivMul(total, n);
  }

  /** The end of the last of `n` equal shares is the whole. */
  lemma LastShareEnd(total: real, n: nat, segLength: real)
    requires n >= 1 && segLength == total / n as real
    ensures Cut(segLength, n - 1 + 1) == total
  {
    CutIsProduct(segLength, n);
    DivMul(total, n as real);
  }

  /** The segment lengths add up to the arc length of the polyline. */
  lemma SegmentLengthsSum(poly: seq<LatLng>, count: real, dist: Distance)
    requires Cuttable(poly, dist)
    ensures LengthSum(SegmentShoreline(poly, count, dist)) == TotalLength(poly, dist)
  {
    LengthSumShares(SegmentShoreline(poly, count, dist), TotalLength(poly, dist));
  }

  /** When the last edge has positive length, the last segment ends at the last vertex. */
  lemma SegmentShorelineEndsAtLastVertex(poly: seq<LatLng>, count: real, dist: Distance)
    requires |poly| >= 2
    requires dist(poly[|poly| - 2], poly[|poly| - 1]) > 0.0
    ensures Cuttable(poly, dist)
    ensures SegmentShoreline(poly, count, dist)[|SegmentShoreline(poly, count, dist)| - 1].end
      == poly[|poly| - 1]
  {
    var last := |poly| - 1;
    CumulativeMonotone(poly, dist, 0, last - 1);
    CumulativeStep(poly, dist, last);
    assert Cuttable(poly, dist);
    SegmentShorelineIsPieces(poly, count, dist);
    PiecesEnd(poly, Cumulative(poly, dist), SegmentCount(count));
    InterpolateAtEnd(poly, dist);
  }

  /** The last of `n` equal pieces of the whole arc length ends at its full length. */
  lemma PiecesEnd(poly: seq<LatLng>, cum: seq<real>, n: nat)
    requires DistanceTable(poly, cum)
    requires n >= 1
    ensures Pieces(poly, cum, cum[|cum| - 1] / n as real, n)[n - 1].end
      == InterpolateAt(poly, cum, cum[|cum| - 1])
  {
    var total := cum[|cum| - 1];
    var segLength := total / n as real;
    LastShareEnd(total, n, segLength);
    var piece := Pieces(poly, cum, segLength, n)[n - 1];
    assert piece == SegmentAt(poly, cum, segLength, n - 1);
    assert piece.end == InterpolateAt(poly, cum, Cut(segLength, n - 1 + 1));
    assert Cut(segLength, n - 1 + 1) == total;
    assert InterpolateAt(poly, cum, Cut(segLength, n - 1 + 1)) == InterpolateAt(poly, cum, total);
  }

  // ---------------------------------------------------------------------------
  // extractSegmentPaths

  /** The vertices `j >= from` whose cumulative distance lies strictly between `lo` and
      `hi`, in polyline order: the inner loop of `extractSegmentPaths`. */
  function IndicesBetween(cum: seq<real>, lo: real, hi: real, from: nat): (ix: seq<nat>)
    requires from <= |cum|
    ensures forall k :: 0 <= k < |ix| ==> from <= ix[k] < |cum| && lo < cum[ix[k]] < hi
    ensures forall a, b :: 0 <= a < b < |ix| ==> ix[a] < ix[b]
    ensures forall j :: from <= j < |cum| && lo < cum[j] < hi ==> j in ix
    decreases |cum| - from
  {
    if from == |cum| then []
    else if lo < cum[from] < hi then [from] + IndicesBetween(cum, lo, hi, from + 1)
    else IndicesBetween(cum, lo, hi, from + 1)
  }

  /** The path of piece `s`: its interpolated start, the original vertices strictly
      inside its distance range, its interpolated end. */
  function PathAt(poly: seq<LatLng>, cum: seq<real>, segLength: real, s: nat): (path: seq<LatLng>)
    requires DistanceTable(poly, cum)
    ensures var inner := IndicesBetween(cum, Cut(segLength, s), Cut(segLength, s + 1), 1);
      && |path| == |inner| + 2
      && (forall k :: 0 <= k < |inner| ==> path[k + 1] == poly[inner[k]])
    ensures path[0] == InterpolateAt(poly, cum, Cut(segLength, s))
    ensures path[|path| - 1] == InterpolateAt(poly, cum, Cut(segLength, s + 1))
  {
    var inner := IndicesBetween(cum, Cut(segLength, s), Cut(segLength, s + 1), 1);
    var first := InterpolateAt(poly, cum, Cut(segLength, s));
    var last := InterpolateAt(poly, cum, Cut(segLength, s + 1));
    var mid := Permute(poly, inner);
    Bracketed(first, mid, last);
    [first] + mid + [last]
  }

  /** The shape of `[first, ...mid, last]`. */
  lemma Bracketed<T>(first: T, mid: seq<T>, last: T)
    ensures |[first] + mid + [last]| == |mid| + 2
    ensures ([first] + mid + [last])[0] == first
    ensures ([first] + mid + [last])[|mid| + 1] == last
    ensures forall k :: 0 <= k < |mid| ==> ([first] + mid + [last])[k + 1] == mid[k]
  {
  }

  /** The paths of the `n` equal pieces of length `segLength`. */
  function Paths(poly: seq<LatLng>, cum: seq<real>, segLength: real, n: nat): (paths: seq<seq<LatLng>>)
    requires DistanceTable(poly, cum)
    ensures |paths| == n
    ensures forall s :: 0 <= s < n ==> paths[s] == PathAt(poly, cum, segLength, s)
  {
    seq(n, s requires 0 <= s < n => PathAt(poly, cum, segLength, s))
  }

  /** `extractSegmentPaths(polyline, segmentCount)` */
  function ExtractSegmentPaths(poly: seq<LatLng>, count: real, dist: Distance): (paths: seq<seq<LatLng>>)
    ensures |poly| == 0 ==> paths == [[Origin]]
    ensures |poly| >= 1 && !Cuttable(poly, dist) ==> paths == [[poly[0]]]
    ensures Cuttable(poly, dist) ==> |paths| == SegmentCount(count)
    ensures Cuttable(poly, dist) ==> forall s :: 0 <= s < |paths| ==> |paths[s]| >= 2
    ensures |poly| >= 1 ==> paths[0][0] == poly[0]
  {
    if |poly| < 2 then
      [[if |poly| == 0 then Origin else poly[0]]]
    else
      var n := SegmentCount(count);
      var cum := Cumulative(poly, dist);
      TotalLengthNonNegative(poly, dist);
      var total := cum[|cum| - 1];
      if total == 0.0 then
        [[poly[0]]]
      else
        CumulativeIsTable(poly, dist);
        InterpolateAtStart(poly, cum);
        Paths(poly, cum, total / n as real, n)
  }

  /** A cuttable polyline yields one path per piece. */
  lemma ExtractSegmentPathsIsPaths(poly: seq<LatLng>, count: real, dist: Distance)
    requires Cuttable(poly, dist)
    ensures DistanceTable(poly, Cumulative(poly, dist))
    ensures ExtractSegmentPaths(poly, count, dist) == Paths(poly, Cumulative(poly, dist),
      TotalLength(poly, dist) / SegmentCount(count) as real, SegmentCount(count))
  {
    CumulativeIsTable(poly, dist);
  }

  /** The interior of path `s` is exactly the original vertices whose cumulative distance
      lies strictly inside the piece's range, in polyline order. */
  lemma PathInterior(poly: seq<LatLng>, count: real, dist: Distance, s: nat)
    requires Cuttable(poly, dist)
    requires s < SegmentCount(count)
    ensures var path := ExtractSegmentPaths(poly, count, dist)[s];
      var cum := Cumulative(poly, dist);
      var segLength := TotalLength(poly, dist) / SegmentCount(count) as real;
      var ix := IndicesBetween(cum, Cut(segLength, s), Cut(segLength, s + 1), 1);
      && |path| == |ix| + 2
      && (forall k :: 0 <= k < |ix| ==> path[k + 1] == poly[ix[k]])
      && (forall a, b :: 0 <= a < b < |ix| ==> ix[a] < ix[b])
      && (forall j :: 1 <= j < |poly| ==>
            (j in ix <==> Cut(segLength, s) < cum[j] < Cut(segLength, s + 1)))
  {
    ExtractSegmentPathsIsPaths(poly, count, dist);
    var cum := Cumulative(poly, dist);
    var segLength := TotalLength(poly, dist) / SegmentCount(count) as real;
    assert ExtractSegmentPaths(poly, count, dist)[s] == PathAt(poly, cum, segLength, s);
    IndicesExact(cum, Cut(segLength, s), Cut(segLength, s + 1));
  }

  /** The listed indices from 1 on are exactly those strictly inside the range. */
  lemma IndicesExact(cum: seq<real>, lo: real, hi: real)
    requires |cum| >= 1
    ensures forall j :: 1 <= j < |cum| ==> (j in IndicesBetween(cum, lo, hi, 1) <==> lo < cum[j] < hi)
  {
    forall j | 1 <= j < |cum| && j in IndicesBetween(cum, lo, hi, 1)
      ensures lo < cum[j] < hi
    {
      InBetween(cum, lo, hi, 1, j);
    }
  }

  /** Each piece's path starts and ends where the corresponding segment does. */
  lemma PathsMatchSegments(poly: seq<LatLng>, count: real, dist: Distance, s: nat)
    requires Cuttable(poly, dist)
    requires s < SegmentCount(count)
    ensures var path := ExtractSegmentPaths(poly, count, dist)[s];
      var seg := SegmentShoreline(poly, count, dist)[s];
      path[0] == seg.start && path[|path| - 1] == seg.end
  {
    ExtractSegmentPathsIsPaths(poly, count, dist);
    SegmentShorelineIsPieces(poly, count, dist);
  }

  /** When the last edge has positive length, the last path ends at the last vertex. */
  lemma ExtractSegmentPathsEndsAtLastVertex(poly: seq<LatLng>, count: real, dist: Distance)
    requires |poly| >= 2
    requires dist(poly[|poly| - 2], poly[|poly| - 1]) > 0.0
    ensures var paths := ExtractSegmentPaths(poly, count, dist);
      |paths| >= 1 && |paths[|paths| - 1]| >= 1 && paths[|paths| - 1][|paths[|paths| - 1]| - 1] == poly[|poly| - 1]
  {
    SegmentShorelineEndsAtLastVertex(poly, count, dist);
    PathsMatchSegments(poly, count, dist, SegmentCount(count) - 1);
  }

  /** The open ranges `(s * len, (s + 1) * len)` of different pieces are disjoint. */
  lemma ShareRangesDisjoint(segLength: real, s1: nat, s2: nat, x: real)
    requires segLength > 0.0
    requires Cut(segLength, s1) < x < Cut(segLength, s1 + 1)
    requires Cut(segLength, s2) < x < Cut(segLength, s2 + 1)
    ensures s1 == s2
  {
    if s1 < s2 {
      CutMonotone(segLength, s1 + 1, s2);
    } else if s2 < s1 {
      CutMonotone(segLength, s2 + 1, s1);
    }
  }

  /** Distance ranges of different pieces do not overlap, so no original vertex is
      copied into two paths. */
  lemma VertexInOnePath(poly: seq<LatLng>, count: real, dist: Distance, j: nat, s1: nat, s2: nat)
    requires Cuttable(poly, dist)
    requires s1 < SegmentCount(count) && s2 < SegmentCount(count)
    requires var cum := Cumulative(poly, dist);
      var segLength := TotalLength(poly, dist) / SegmentCount(count) as real;
      && j in IndicesBetween(cum, Cut(segLength, s1), Cut(segLength, s1 + 1), 1)
      && j in IndicesBetween(cum, Cut(segLength, s2), Cut(segLength, s2 + 1), 1)
    ensures s1 == s2
  {
    var n := SegmentCount(count) as real;
    var total := TotalLength(poly, dist);
    DivPositive(total, n);
    IndexInOneRange(Cumulative(poly, dist), total / n, j, s1, s2);
  }

  /** An index listed for two pieces' ranges belongs to one piece. */
  lemma IndexInOneRange(cum: seq<real>, segLength: real, j: nat, s1: nat, s2: nat)
    requires |cum| >= 1 && segLength > 0.0
    requires j in IndicesBetween(cum, Cut(segLength, s1), Cut(segLength, s1 + 1), 1)
    requires j in IndicesBetween(cum, Cut(segLength, s2), Cut(segLength, s2 + 1), 1)
    ensures s1 == s2
  {
    InBetween(cum, Cut(segLength, s1), Cut(segLength, s1 + 1), 1, j);
    InBetween(cum, Cut(segLength, s2), Cut(segLength, s2 + 1), 1, j);
    ShareRangesDisjoint(segLength, s1, s2, cum[j]);
  }

  /** A listed vertex lies strictly inside the range. */
  lemma InBetween(cum: seq<real>, lo: real, hi: real, from: nat, j: nat)
    requires from <= |cum|
    requires j in IndicesBetween(cum, lo, hi, from)
    ensures from <= j < |cum| && lo < cum[j] < hi
  {
    var ix := IndicesBetween(cum, lo, hi, from);
    var k :| 0 <= k < |ix| && ix[k] == j;
  }
}
