/** The shoreline analytics pipeline of src/utils/shorelineAnalytics.ts: correcting a
    visible waste estimate for buried waste, spreading the corrected tonnage over the
    shoreline segments by heatmap proximity, per-segment area, density and person-hours,
    percentile density categories, band polygons and the choice of a ship access point. */
module ShorelineAnalytics {
  import opened Numeric
  import opened Options
  import opened Geodesy
  import opened StableSort
  import opened Resample

  /** 40% of the waste on a beach is visible, 60% is buried. */
  const VisibleFraction: real := 0.4
  const BuriedFraction: real := 0.6
  /** Depth of the cleanup band behind the waterline, in metres. */
  const ShoreDepthMeters: real := 30.0
  const ExtractionRateTonsPerPersonPerDay: real := 0.05
  const HoursPerDay: real := 8.0
  const KgPerTon: real := 1000.0
  /** Heatmap influence halves at this distance, in metres. */
  const InfluenceScaleMeters: real := 500.0
  /** The floor of a segment's heatmap score. */
  const MinScore: real := 0.01

  // ---------------------------------------------------------------------------
  // Corrected tons

  datatype CorrectedTons = CorrectedTons(visibleTons: real, buriedTons: real, correctedTotalTons: real)

  /** `computeCorrectedTons(visibleTons)`: the total is the visible part divided by the
      visible fraction, rounded to 0.1 t; buried and visible parts are recomputed from the
      rounded total, each rounded to 0.1 t. Nothing visible means nothing at all. */
  function ComputeCorrectedTons(visible: real): (c: CorrectedTons)
    ensures visible <= 0.0 ==> c == CorrectedTons(0.0, 0.0, 0.0)
    ensures visible > 0.0 ==> Near(visible / VisibleFraction, c.correctedTotalTons, 0.05)
    ensures visible > 0.0 ==> Near(c.correctedTotalTons * BuriedFraction, c.buriedTons, 0.05)
    ensures visible > 0.0 ==> Near(c.correctedTotalTons * VisibleFraction, c.visibleTons, 0.05)
    ensures OnGrid(c.correctedTotalTons, 1) && OnGrid(c.buriedTons, 1) && OnGrid(c.visibleTons, 1)
    ensures c.visibleTons >= 0.0 && c.buriedTons >= 0.0 && c.correctedTotalTons >= 0.0
  {
    if visible <= 0.0 then
      assert OnGrid(0.0, 1);
      CorrectedTons(0.0, 0.0, 0.0)
    else
      assert HalfUlp(1) == 0.05;
      DivPositive(visible, VisibleFraction);
      var total := ToFixed(visible / VisibleFraction, 1);
      MulNonNegative(total, VisibleFraction);
      MulNonNegative(total, BuriedFraction);
      CorrectedTons(ToFixed(total * VisibleFraction, 1), ToFixed(total * BuriedFraction, 1), total)
  }

  /** The visible and buried parts add up to the corrected total up to the two roundings. */
  lemma CorrectedPartsAddUp(visible: real)
    ensures var c := ComputeCorrectedTons(visible);
      Near(c.correctedTotalTons, c.visibleTons + c.buriedTons, 0.1)
  {
  }

  /** The visible part read back from the corrected total is within 0.07 t of the input:
      0.05 t lost to the total's rounding (0.02 t after scaling by 0.4), 0.05 t to its own. */
  lemma CorrectedKeepsVisible(visible: real)
    requires visible > 0.0
    ensures Near(visible, ComputeCorrectedTons(visible).visibleTons, 0.07)
  {
  }

  /** The worked examples: 320 t visible is 800 t in total, 480 t of it buried; 1.3 t
      visible is 3.25 t rounded up to 3.3 t, 1.98 t buried rounded to 2.0 t. */
  lemma CorrectedTonsExamples()
    ensures ComputeCorrectedTons(320.0) == CorrectedTons(320.0, 480.0, 800.0)
    ensures ComputeCorrectedTons(1.3) == CorrectedTons(1.3, 2.0, 3.3)
    ensures ComputeCorrectedTons(-10.0) == CorrectedTons(0.0, 0.0, 0.0)
  {
    CorrectedTonsExample(320.0, 800.0, 8000, 320.0, 3200, 480.0, 4800);
    CorrectedTonsExample(1.3, 3.25, 33, 1.32, 13, 1.98, 20);
  }

  /** One worked example, given the three rounded values in tenths. */
  lemma CorrectedTonsExample(visible: real, scaled: real, totalTenths: int,
                             visiblePart: real, visibleTenths: int, buriedPart: real, buriedTenths: int)
    requires visible > 0.0 && scaled == visible / 0.4
    requires totalTenths as real - 0.5 <= scaled * 10.0 < totalTenths as real + 0.5
    requires visiblePart == totalTenths as real / 10.0 * 0.4
    requires visibleTenths as real - 0.5 <= visiblePart * 10.0 < visibleTenths as real + 0.5
    requires buriedPart == totalTenths as real / 10.0 * 0.6
    requires buriedTenths as real - 0.5 <= buriedPart * 10.0 < buriedTenths as real + 0.5
    ensures ComputeCorrectedTons(visible) == CorrectedTons(
      visibleTenths as real / 10.0, buriedTenths as real / 10.0, totalTenths as real / 10.0)
  {
    ToFixedTenths(scaled, totalTenths);
    var total := ToFixed(visible / VisibleFraction, 1);
    assert total == totalTenths as real / 10.0;
    assert total * VisibleFraction == visiblePart && total * BuriedFraction == buriedPart;
    ToFixedTenths(visiblePart, visibleTenths);
    ToFixedTenths(buriedPart, buriedTenths);
  }

  // ---------------------------------------------------------------------------
  // Distributing tons over segments

  /** A heatmap reading: a coordinate and its waste intensity. */
  datatype HeatPoint = HeatPoint(at: LatLng, intensity: real)

  /** The inverse-distance weight divisor `1 + dist / 500`. */
  function Falloff(d: real): (w: real)
    requires d >= 0.0
    ensures w >= 1.0
  {
    1.0 + d / InfluenceScaleMeters
  }

  /** The contribution of one heatmap point to a segment midpoint. */
  function Contribution(mid: LatLng, pt: HeatPoint, dist: Distance): real
  {
    pt.intensity / Falloff(dist(mid, pt.at))
  }

  /** A positive intensity counts for more the closer it is to the midpoint. */
  lemma CloserCountsMore(mid: LatLng, near: HeatPoint, far: HeatPoint, dist: Distance)
    requires near.intensity == far.intensity > 0.0
    requires dist(mid, near.at) < dist(mid, far.at)
    ensures Contribution(mid, near, dist) > Contribution(mid, far, dist)
  {
    var a := Falloff(dist(mid, near.at));
    var b := Falloff(dist(mid, far.at));
    DivDecreasing(near.intensity, a, b);
  }

  /** The inner loop of the score: contributions summed in heatmap order. */
  function Influence(mid: LatLng, heat: seq<HeatPoint>, dist: Distance): real
  {
    if |heat| == 0 then 0.0
    else Influence(mid, heat[..|heat| - 1], dist) + Contribution(mid, heat[|heat| - 1], dist)
  }

  /** A segment's heatmap score, floored at 0.01 so that every segment gets a share. */
  function Score(mid: LatLng, heat: seq<HeatPoint>, dist: Distance): (s: real)
    ensures s >= MinScore
    ensures s >= Influence(mid, heat, dist)
    ensures s == MinScore || s == Influence(mid, heat, dist)
  {
    Max(Influence(mid, heat, dist), MinScore)
  }

  /** The score of every segment. */
  function Scores(segs: seq<Segment>, heat: seq<HeatPoint>, dist: Distance): (ss: seq<real>)
    ensures |ss| == |segs|
    ensures forall i :: 0 <= i < |segs| ==> ss[i] == Score(segs[i].midpoint, heat, dist)
    ensures forall i :: 0 <= i < |ss| ==> ss[i] >= MinScore
  {
    seq(|segs|, i requires 0 <= i < |segs| => Score(segs[i].midpoint, heat, dist))
  }

  /** The unrounded share `(score / totalScore) * tons` of score `s`. */
  function Share(s: real, totalScore: real, tons: real): real
    requires totalScore > 0.0
  {
    (s / totalScore) * tons
  }

  /** `distributeTonsToSegments(segments, heatmapPoints, correctedTotalTons)`: each
      segment's share of the tons is its share of the total score, rounded to 1 kg. */
  function DistributeTonsToSegments(segs: seq<Segment>, heat: seq<HeatPoint>, tons: real, dist: Distance)
    : (r: seq<real>)
    ensures |r| == |segs|
    ensures |segs| > 0 ==> Sum(Scores(segs, heat, dist)) > 0.0
    ensures |segs| > 0 ==> forall i :: 0 <= i < |r| ==>
      Near(Share(Scores(segs, heat, dist)[i], Sum(Scores(segs, heat, dist)), tons), r[i], 0.0005)
    ensures tons >= 0.0 ==> forall i :: 0 <= i < |r| ==> r[i] >= 0.0
  {
    if |segs| == 0 then []
    else
      var scores := Scores(segs, heat, dist);
      var total := Sum(scores);
      SumAtLeast(scores, MinScore);
      MulLe(1.0, |scores| as real, MinScore);
      assert HalfUlp(3) == 0.0005;
      RoundedShares(scores, total, tons)
  }

  /** Every share rounded to three decimals. */
  function RoundedShares(scores: seq<real>, total: real, tons: real): (r: seq<real>)
    requires total > 0.0
    requires forall i :: 0 <= i < |scores| ==> scores[i] >= 0.0
    ensures |r| == |scores|
    ensures forall i :: 0 <= i < |r| ==> r[i] == ToFixed(Share(scores[i], total, tons), 3)
    ensures tons >= 0.0 ==> forall i :: 0 <= i < |r| ==> r[i] >= 0.0
  {
    seq(|scores|, i requires 0 <= i < |scores| =>
      DivNonNegative(scores[i], total);
      MulNonNegative(scores[i] / total, tons);
      ToFixed(Share(scores[i], total, tons), 3))
  }

  /** The unrounded shares add up to the tons being distributed. */
  lemma {:induction false} SharesAddUp(scores: seq<real>, shares: seq<real>, total: real, tons: real)
    requires total > 0.0 && Sum(scores) == total
    requires |shares| == |scores|
    requires forall i :: 0 <= i < |scores| ==> shares[i] == Share(scores[i], total, tons)
    ensures Sum(shares) == tons
  {
    forall i | 0 <= i < |scores|
      ensures shares[i] == scores[i] * (tons / total)
    {
      DivMulSwap(scores[i], total, tons);
    }
    SumScale(scores, shares, tons / total);
    MulDivCancel(total, tons);
  }

  /** The distributed tons add up to the corrected total, up to 0.5 kg of rounding per
      segment. */
  lemma DistributedTonsAddUp(segs: seq<Segment>, heat: seq<HeatPoint>, tons: real, dist: Distance)
    requires |segs| > 0
    ensures Near(tons, Sum(DistributeTonsToSegments(segs, heat, tons, dist)), |segs| as real * 0.0005)
  {
    var scores := Scores(segs, heat, dist);
    var total := Sum(scores);
    var r := DistributeTonsToSegments(segs, heat, tons, dist);
    var shares := seq(|scores|, i requires 0 <= i < |scores| => Share(scores[i], total, tons));
    SharesAddUp(scores, shares, total, tons);
    SumClose(shares, r, 0.0005);
  }

  /** A segment with a higher score never gets fewer tons. */
  lemma DistributionMonotone(segs: seq<Segment>, heat: seq<HeatPoint>, tons: real, dist: Distance, i: nat, j: nat)
    requires i < |segs| && j < |segs|
    requires tons >= 0.0
    requires Scores(segs, heat, dist)[i] <= Scores(segs, heat, dist)[j]
    ensures DistributeTonsToSegments(segs, heat, tons, dist)[i] <= DistributeTonsToSegments(segs, heat, tons, dist)[j]
  {
    var scores := Scores(segs, heat, dist);
    RoundedSharesAt(segs, heat, tons, dist, i);
    RoundedSharesAt(segs, heat, tons, dist, j);
    ShareMonotone(scores[i], scores[j], Sum(scores), tons);
  }

  lemma ShareMonotone(a: real, b: real, total: real, tons: real)
    requires a <= b && total > 0.0 && tons >= 0.0
    ensures ToFixed(Share(a, total, tons), 3) <= ToFixed(Share(b, total, tons), 3)
  {
    DivLe(a, b, total);
    MulLe(a / total, b / total, tons);
    ToFixedMonotone(Share(a, total, tons), Share(b, total, tons), 3);
  }

  /** Entry `i` of the distribution is the rounded share of segment `i`. */
  lemma RoundedSharesAt(segs: seq<Segment>, heat: seq<HeatPoint>, tons: real, dist: Distance, i: nat)
    requires i < |segs|
    ensures Sum(Scores(segs, heat, dist)) > 0.0
    ensures DistributeTonsToSegments(segs, heat, tons, dist)[i]
      == ToFixed(Share(Scores(segs, heat, dist)[i], Sum(Scores(segs, heat, dist)), tons), 3)
  {
    var scores := Scores(segs, heat, dist);
    SumAtLeast(scores, MinScore);
    MulLe(1.0, |scores| as real, MinScore);
  }

  /** Without heatmap points every segment scores 0.01, and the tons are split evenly. */
  lemma EvenSplitWithoutHeatmap(segs: seq<Segment>, tons: real, dist: Distance, i: nat)
    requires i < |segs|
    ensures DistributeTonsToSegments(segs, [], tons, dist)[i] == ToFixed(tons / |segs| as real, 3)
  {
    var scores := Scores(segs, [], dist);
    assert forall k :: 0 <= k < |scores| ==> scores[k] == MinScore;
    SumConstant(scores, MinScore);
    RoundedSharesAt(segs, [], tons, dist, i);
    EvenShareRounded(|segs|, Sum(scores), tons);
  }

  lemma EvenShareRounded(n: nat, total: real, tons: real)
    requires n >= 1 && total == n as real * MinScore
    ensures total > 0.0
    ensures ToFixed(Share(MinScore, total, tons), 3) == ToFixed(tons / n as real, 3)
  {
    EvenShare(n as real, MinScore, tons, total);
    assert Share(MinScore, total, tons) == tons / n as real;
  }

  // ---------------------------------------------------------------------------
  // Segment metrics

  /** The tunables of `computeSegmentMetrics`. */
  datatype MetricsParams = MetricsParams(
    shoreDepthMeters: real,
    extractionRateTonsPerPersonPerDay: real,
    hoursPerDay: real)

  /** The defaults of `computeSegmentMetrics`: 30 m deep band, 0.05 t per person per
      day, 8-hour days. */
  const DefaultParams: MetricsParams :=
    MetricsParams(ShoreDepthMeters, ExtractionRateTonsPerPersonPerDay, HoursPerDay)

  /** `Omit<SegmentMetrics, 'category'>` */
  datatype SegmentMetrics = SegmentMetrics(
    index: nat,
    start: LatLng,
    end: LatLng,
    midpoint: LatLng,
    lengthMeters: real,
    areaM2: real,
    plasticTons: real,
    weightKgPerM2: real,
    personHours: int)

  /** `tonsPerSegment[i] ?? 0` */
  function TonsAt(tonsPer: seq<real>, i: nat): (t: real)
    ensures i < |tonsPer| ==> t == tonsPer[i]
    ensures i >= |tonsPer| ==> t == 0.0
  {
    if i < |tonsPer| then tonsPer[i] else 0.0
  }

  /** Person-hours to collect `tons` at `rate` tonnes per person-day of `hours` hours:
      the fewest whole hours whose output covers the tons. When the hourly rate
      `rate / hours` is not a positive number (a zero day length gives an infinite or
      undefined rate in the source, and both lead to 0), the answer is 0. */
  function PersonHours(tons: real, rate: real, hours: real): (h: int)
    ensures hours != 0.0 && rate / hours > 0.0 ==>
      h as real * (rate / hours) >= tons && (h - 1) as real * (rate / hours) < tons
    ensures !(hours != 0.0 && rate / hours > 0.0) ==> h == 0
    ensures tons >= 0.0 ==> h >= 0
    ensures tons == 0.0 ==> h == 0
  {
    if hours != 0.0 && rate / hours > 0.0 then
      var perHour := rate / hours;
      CeilDivLeast(tons, perHour);
      DivNonNegativeOrZero(tons, perHour);
      Ceil(tons / perHour)
    else 0
  }

  /** Kilograms per square metre, to 0.01 kg; 0 for a band without area. */
  function Density(tons: real, area: real): (w: real)
    ensures area > 0.0 ==> w == ToFixed(tons * KgPerTon / area, 2)
    ensures area > 0.0 ==> Near(tons * KgPerTon / area, w, 0.005)
    ensures area <= 0.0 ==> w == 0.0
    ensures tons >= 0.0 ==> w >= 0.0
    ensures tons == 0.0 ==> w == 0.0
  {
    if area > 0.0 then
      assert HalfUlp(2) == 0.005;
      ToFixed(tons * KgPerTon / area, 2)
    else 0.0
  }

  /** The metrics of one segment carrying `tons`. Density uses the unrounded area. */
  function MetricsOf(seg: Segment, tons: real, p: MetricsParams): (m: SegmentMetrics)
    ensures m.index == seg.index && m.start == seg.start && m.end == seg.end
    ensures m.midpoint == seg.midpoint && m.lengthMeters == seg.lengthMeters
    ensures Near(seg.lengthMeters * p.shoreDepthMeters, m.areaM2, 0.05)
    ensures Near(tons, m.plasticTons, 0.005)
    ensures m.areaM2 == ToFixed(seg.lengthMeters * p.shoreDepthMeters, 1)
    ensures m.plasticTons == ToFixed(tons, 2)
    ensures m.weightKgPerM2 == Density(tons, seg.lengthMeters * p.shoreDepthMeters)
    ensures m.personHours == PersonHours(tons, p.extractionRateTonsPerPersonPerDay, p.hoursPerDay)
  {
    assert HalfUlp(1) == 0.05 && HalfUlp(2) == 0.005;
    var area := seg.lengthMeters * p.shoreDepthMeters;
    SegmentMetrics(seg.index, seg.start, seg.end, seg.midpoint, seg.lengthMeters,
      ToFixed(area, 1), ToFixed(tons, 2), Density(tons, area),
      PersonHours(tons, p.extractionRateTonsPerPersonPerDay, p.hoursPerDay))
  }

  /** `computeSegmentMetrics({ segments, tonsPerSegment, ... })`: one record per segment,
      a missing tonnage counting as 0. */
  function ComputeSegmentMetrics(segs: seq<Segment>, tonsPer: seq<real>, p: MetricsParams)
    : (ms: seq<SegmentMetrics>)
    ensures |ms| == |segs|
    ensures forall i :: 0 <= i < |segs| ==> ms[i] == MetricsOf(segs[i], TonsAt(tonsPer, i), p)
  {
    seq(|segs|, i requires 0 <= i < |segs| => MetricsOf(segs[i], TonsAt(tonsPer, i), p))
  }

  /** The worked example: 100 m of shoreline carrying 5 t is a 3000 m2 band at
      1.67 kg/m2, and 800 person-hours at 0.05 t per 8-hour person-day. */
  lemma SegmentMetricsExample(seg: Segment)
    requires seg.lengthMeters == 100.0
    ensures var m := ComputeSegmentMetrics([seg], [5.0], DefaultParams)[0];
      m.areaM2 == 3000.0 && m.plasticTons == 5.0 && m.weightKgPerM2 == 1.67 && m.personHours == 800
  {
    assert Pow10(1) == 10.0 && Pow10(2) == 100.0;
    assert Units(3000.0, 1) == 30000;
    assert Units(5.0, 2) == 500;
    assert Units(5.0 * 1000.0 / 3000.0, 2) == 167;
    assert 0.05 / 8.0 == 0.00625;
    assert Ceil(5.0 / 0.00625) == 800;
  }

  /** A segment without tons has no density and needs no person-hours. */
  lemma EmptySegmentNeedsNoWork(seg: Segment, p: MetricsParams)
    ensures MetricsOf(seg, 0.0, p).weightKgPerM2 == 0.0
    ensures MetricsOf(seg, 0.0, p).personHours == 0
    ensures MetricsOf(seg, 0.0, p).plasticTons == 0.0
  {
  }

  // ---------------------------------------------------------------------------
  // Density categories

  datatype Category = Green | Yellow | Red

  /** Green below yellow below red. */
  function Rank(c: Category): (r: nat)
    ensures r <= 2
  {
    match c
    case Green => 0
    case Yellow => 1
    case Red => 2
  }

  /** `SegmentMetrics` with its density category. */
  datatype CategorizedSegment = CategorizedSegment(metrics: SegmentMetrics, category: Category)

  function Weights(ms: seq<SegmentMetrics>): (ws: seq<real>)
    ensures |ws| == |ms|
    ensures forall i :: 0 <= i < |ms| ==> ws[i] == ms[i].weightKgPerM2
  {
    seq(|ms|, i requires 0 <= i < |ms| => ms[i].weightKgPerM2)
  }

  function Negated(xs: seq<real>): (ys: seq<real>)
    ensures |ys| == |xs|
    ensures forall i :: 0 <= i < |xs| ==> ys[i] == -xs[i]
  {
    seq(|xs|, i requires 0 <= i < |xs| => -xs[i])
  }

  /** `[...xs].sort((a, b) => a - b)`: the same values in ascending order. */
  function Ascending(xs: seq<real>): (r: seq<real>)
    ensures |r| == |xs|
    ensures forall a, b :: 0 <= a < b < |r| ==> r[a] <= r[b]
    ensures multiset(r) == multiset(xs)
  {
    SortDescIsPermutation(xs, Negated(xs));
    SortDesc(xs, Negated(xs))
  }

  /** `sorted[Math.floor(sorted.length * p)]`; the index is always in range, so the
      `?? 0` fallback of the source never applies. */
  function Percentile(xs: seq<real>, p: real): (v: real)
    requires |xs| >= 1 && 0.0 <= p < 1.0
    ensures v in xs
    ensures 0 <= Floor(|xs| as real * p) < |xs|
    ensures v == Ascending(xs)[Floor(|xs| as real * p)]
  {
    var sorted := Ascending(xs);
    PercentileIndex(|xs|, p);
    var k := Floor(|xs| as real * p);
    ElementOfPermutation(sorted, xs, k);
    sorted[k]
  }

  lemma ElementOfPermutation(ys: seq<real>, xs: seq<real>, k: nat)
    requires multiset(ys) == multiset(xs) && k < |ys|
    ensures ys[k] in xs
  {
    assert ys[k] in multiset(ys);
  }

  lemma PercentileIndex(n: nat, p: real)
    requires n >= 1 && 0.0 <= p < 1.0
    ensures 0 <= Floor(n as real * p) < n
  {
    MulLt(p, 1.0, n as real);
    MulLe(0.0, p, n as real);
  }

  /** The band a density falls in, given the 33rd and 66th percentiles. */
  function CategoryFor(w: real, p33: real, p66: real): (c: Category)
    ensures c == Green <==> w <= p33
    ensures c == Yellow <==> p33 < w <= p66
    ensures c == Red <==> p33 < w && p66 < w
  {
    if w <= p33 then Green
    else if w <= p66 then Yellow
    else Red
  }

  /** `categorizeSegmentsByDensity(metrics)`: green up to the 33rd percentile of
      density, yellow up to the 66th, red above. */
  function CategorizeSegmentsByDensity(ms: seq<SegmentMetrics>): (cs: seq<CategorizedSegment>)
    ensures |cs| == |ms|
    ensures forall i :: 0 <= i < |ms| ==> cs[i].metrics == ms[i]
    ensures |ms| > 0 ==> forall i :: 0 <= i < |ms| ==>
      cs[i].category == CategoryFor(ms[i].weightKgPerM2,
        Percentile(Weights(ms), 0.33), Percentile(Weights(ms), 0.66))
  {
    if |ms| == 0 then []
    else
      var p33 := Percentile(Weights(ms), 0.33);
      var p66 := Percentile(Weights(ms), 0.66);
      seq(|ms|, i requires 0 <= i < |ms| =>
        CategorizedSegment(ms[i], CategoryFor(ms[i].weightKgPerM2, p33, p66)))
  }

  /** The 33rd percentile never exceeds the 66th. */
  lemma PercentilesOrdered(xs: seq<real>)
    requires |xs| >= 1
    ensures Percentile(xs, 0.33) <= Percentile(xs, 0.66)
  {
    FloorMonotone(|xs| as real * 0.33, |xs| as real * 0.66);
  }

  /** A denser segment is never in a lower category. */
  lemma CategoryMonotone(ms: seq<SegmentMetrics>, i: nat, j: nat)
    requires i < |ms| && j < |ms|
    requires ms[i].weightKgPerM2 <= ms[j].weightKgPerM2
    ensures Rank(CategorizeSegmentsByDensity(ms)[i].category)
      <= Rank(CategorizeSegmentsByDensity(ms)[j].category)
  {
    PercentilesOrdered(Weights(ms));
  }

  /** The least dense segment is always green. */
  lemma LightestIsGreen(ms: seq<SegmentMetrics>, i: nat)
    requires i < |ms|
    requires forall j :: 0 <= j < |ms| ==> ms[i].weightKgPerM2 <= ms[j].weightKgPerM2
    ensures CategorizeSegmentsByDensity(ms)[i].category == Green
  {
    var ws := Weights(ms);
    var p33 := Percentile(ws, 0.33);
    var k :| 0 <= k < |ws| && ws[k] == p33;
  }

  /** When every segment has the same density, every segment is green. */
  lemma UniformDensityAllGreen(ms: seq<SegmentMetrics>, i: nat)
    requires i < |ms|
    requires forall j :: 0 <= j < |ms| ==> ms[j].weightKgPerM2 == ms[0].weightKgPerM2
    ensures CategorizeSegmentsByDensity(ms)[i].category == Green
  {
    LightestIsGreen(ms, i);
  }

  // ---------------------------------------------------------------------------
  // Band polygons

  /** A quadrilateral band around a segment, corners `[startL, endL, endR, startR]`,
      carrying the segment's category and metrics. */
  datatype BandPolygon = BandPolygon(
    index: nat,
    category: Category,
    coords: seq<LatLng>,
    plasticTons: real,
    weightKgPerM2: real,
    personHours: int)

  /** `bufferSegmentToPolygon(seg, bandWidthMeters)`: both ends of the segment offset by
      half the band width to its left (bearing minus a right angle) and its right. */
  function BufferSegmentToPolygon(seg: CategorizedSegment, width: real, sphere: Sphere): (b: BandPolygon)
    ensures |b.coords| == 4
    ensures b.index == seg.metrics.index && b.category == seg.category
    ensures b.plasticTons == seg.metrics.plasticTons
    ensures b.weightKgPerM2 == seg.metrics.weightKgPerM2
    ensures b.personHours == seg.metrics.personHours
    ensures var heading := sphere.bearing(seg.metrics.start, seg.metrics.end);
      && b.coords[0] == sphere.offset(seg.metrics.start, heading - PI / 2.0, width / 2.0)
      && b.coords[1] == sphere.offset(seg.metrics.end, heading - PI / 2.0, width / 2.0)
      && b.coords[2] == sphere.offset(seg.metrics.end, heading + PI / 2.0, width / 2.0)
      && b.coords[3] == sphere.offset(seg.metrics.start, heading + PI / 2.0, width / 2.0)
  {
    var m := seg.metrics;
    var half := width / 2.0;
    var heading := sphere.bearing(m.start, m.end);
    var left := heading - PI / 2.0;
    var right := heading + PI / 2.0;
    BandPolygon(m.index, seg.category,
      [sphere.offset(m.start, left, half), sphere.offset(m.end, left, half),
       sphere.offset(m.end, right, half), sphere.offset(m.start, right, half)],
      m.plasticTons, m.weightKgPerM2, m.personHours)
  }

  /** With an offset that moves nothing at distance 0 (as the flat-earth offset does), a
      band of width 0 is the segment itself, traversed out and back. */
  lemma ZeroWidthBand(seg: CategorizedSegment, sphere: Sphere)
    requires forall p, h :: sphere.offset(p, h, 0.0) == p
    ensures BufferSegmentToPolygon(seg, 0.0, sphere).coords
      == [seg.metrics.start, seg.metrics.end, seg.metrics.end, seg.metrics.start]
  {
  }

  /** A zero-length segment collapses the band to its two side points. */
  lemma DegenerateSegmentBand(seg: CategorizedSegment, width: real, sphere: Sphere)
    requires seg.metrics.start == seg.metrics.end
    ensures var b := BufferSegmentToPolygon(seg, width, sphere);
      b.coords[0] == b.coords[1] && b.coords[2] == b.coords[3]
  {
  }

  // ---------------------------------------------------------------------------
  // Ship access point

  datatype AccessKind = Dock | BeachAccess

  /** `ShipAccessPointInput` */
  datatype AccessPoint = AccessPoint(id: string, name: string, at: LatLng, kind: AccessKind)

  /** The first segment of greatest density. */
  function DensestSegment(cs: seq<CategorizedSegment>): (m: nat)
    requires |cs| >= 1
    ensures m < |cs|
    ensures forall j :: 0 <= j < |cs| ==> cs[j].metrics.weightKgPerM2 <= cs[m].metrics.weightKgPerM2
    ensures forall j :: 0 <= j < m ==> cs[j].metrics.weightKgPerM2 < cs[m].metrics.weightKgPerM2
  {
    var ws := Weights(Metrics(cs));
    var m := ArgMax(ws);
    assert forall j :: 0 <= j < |cs| ==> ws[j] <= ws[m];
    m
  }

  /** The metrics of every categorised segment. */
  function Metrics(cs: seq<CategorizedSegment>): (ms: seq<SegmentMetrics>)
    ensures |ms| == |cs|
    ensures forall i :: 0 <= i < |cs| ==> ms[i] == cs[i].metrics
  {
    seq(|cs|, i requires 0 <= i < |cs| => cs[i].metrics)
  }

  /** Distances from each access point to `target`, negated so that the nearest is the
      largest. */
  function Closeness(aps: seq<AccessPoint>, target: LatLng, dist: Distance): (xs: seq<real>)
    ensures |xs| == |aps|
    ensures forall i :: 0 <= i < |aps| ==> xs[i] == -dist(aps[i].at, target)
  {
    seq(|aps|, i requires 0 <= i < |aps| => -dist(aps[i].at, target))
  }

  /** The first access point at the least distance from `target`. */
  function NearestAccessPoint(aps: seq<AccessPoint>, target: LatLng, dist: Distance): (k: nat)
    requires |aps| >= 1
    ensures k < |aps|
    ensures forall j :: 0 <= j < |aps| ==> dist(aps[k].at, target) <= dist(aps[j].at, target)
    ensures forall j :: 0 <= j < k ==> dist(aps[j].at, target) > dist(aps[k].at, target)
  {
    var xs := Closeness(aps, target, dist);
    var k := ArgMax(xs);
    assert forall j :: 0 <= j < |aps| ==> xs[j] <= xs[k];
    k
  }

  /** `selectBestShipAccessPoint(accessPoints, segments)`: none without access points,
      the first one without segments, otherwise the one nearest to the midpoint of the
      densest segment (the first of equals, in both searches). */
  function SelectBestShipAccessPoint(aps: seq<AccessPoint>, cs: seq<CategorizedSegment>, dist: Distance)
    : (r: Option<AccessPoint>)
    ensures |aps| == 0 <==> r.None?
    ensures |aps| > 0 && |cs| == 0 ==> r == Some(aps[0])
    ensures |aps| > 0 && |cs| > 0 ==>
      r == Some(aps[NearestAccessPoint(aps, cs[DensestSegment(cs)].metrics.midpoint, dist)])
  {
    if |aps| == 0 then None
    else if |cs| == 0 then Some(aps[0])
    else
      var densest := cs[DensestSegment(cs)];
      Some(aps[NearestAccessPoint(aps, densest.metrics.midpoint, dist)])
  }

  /** The chosen access point is one of the inputs, and no input is closer to the
      midpoint of a segment of the greatest density. */
  lemma SelectedIsClosestToDensest(aps: seq<AccessPoint>, cs: seq<CategorizedSegment>, dist: Distance)
    requires |aps| > 0 && |cs| > 0
    ensures var r := SelectBestShipAccessPoint(aps, cs, dist);
      exists m :: 0 <= m < |cs|
        && (forall j :: 0 <= j < |cs| ==> cs[j].metrics.weightKgPerM2 <= cs[m].metrics.weightKgPerM2)
        && r.Some? && r.value in aps
        && (forall j :: 0 <= j < |aps| ==>
              dist(r.value.at, cs[m].metrics.midpoint) <= dist(aps[j].at, cs[m].metrics.midpoint))
  {
    var m := DensestSegment(cs);
    var k := NearestAccessPoint(aps, cs[m].metrics.midpoint, dist);
    assert SelectBestShipAccessPoint(aps, cs, dist).value == aps[k];
  }

  // ---------------------------------------------------------------------------
  // The whole pipeline

  datatype Analysis = Analysis(corrected: CorrectedTons, segments: seq<CategorizedSegment>)

  /** The segment count `analyzeMissionShoreline` uses when the caller gives none. */
  const DefaultSegmentCount: real := 10.0

  /** `analyzeMissionShoreline(shoreline, heatmapPoints, visibleTons, segmentCount)`:
      correct the tonnage, cut the shoreline, spread the corrected total over the pieces,
      measure them with the default parameters and categorise them. */
  function AnalyzeMissionShoreline(
    shoreline: seq<LatLng>, heat: seq<HeatPoint>, visible: real, count: real, dist: Distance)
    : (a: Analysis)
    ensures a.corrected == ComputeCorrectedTons(visible)
    ensures var segs := SegmentShoreline(shoreline, count, dist);
      && |a.segments| == |segs|
      && (forall i :: 0 <= i < |segs| ==>
            var m := a.segments[i].metrics;
            && m.index == i && m.start == segs[i].start && m.end == segs[i].end
            && m.lengthMeters == segs[i].lengthMeters)
    ensures var segs := SegmentShoreline(shoreline, count, dist);
      var tons := DistributeTonsToSegments(segs, heat, a.corrected.correctedTotalTons, dist);
      a.segments == CategorizeSegmentsByDensity(ComputeSegmentMetrics(segs, tons, DefaultParams))
  {
    var corrected := ComputeCorrectedTons(visible);
    var segs := SegmentShoreline(shoreline, count, dist);
    var tons := DistributeTonsToSegments(segs, heat, corrected.correctedTotalTons, dist);
    var ms := ComputeSegmentMetrics(segs, tons, DefaultParams);
    IndexedGeometry(segs, tons);
    Analysis(corrected, CategorizeSegmentsByDensity(ms))
  }

  /** For pieces numbered by position, each categorised record carries its position and
      the piece's ends and length. */
  lemma IndexedGeometry(segs: seq<Segment>, tons: seq<real>)
    requires forall i :: 0 <= i < |segs| ==> segs[i].index == i
    ensures var cs := CategorizeSegmentsByDensity(ComputeSegmentMetrics(segs, tons, DefaultParams));
      && |cs| == |segs|
      && forall i :: 0 <= i < |segs| ==>
        var m := cs[i].metrics;
        && m.index == i && m.start == segs[i].start && m.end == segs[i].end
        && m.lengthMeters == segs[i].lengthMeters
  {
    MetricsKeepGeometry(segs, tons);
  }

  /** Measuring and categorising keeps each piece's index, ends and length. */
  lemma MetricsKeepGeometry(segs: seq<Segment>, tons: seq<real>)
    ensures var cs := CategorizeSegmentsByDensity(ComputeSegmentMetrics(segs, tons, DefaultParams));
      && |cs| == |segs|
      && forall i :: 0 <= i < |segs| ==>
        var m := cs[i].metrics;
        && m.index == segs[i].index && m.start == segs[i].start && m.end == segs[i].end
        && m.lengthMeters == segs[i].lengthMeters
  {
  }

  /** The tonnage of every categorised segment. */
  function PlasticTons(cs: seq<CategorizedSegment>): (ts: seq<real>)
    ensures |ts| == |cs|
    ensures forall i :: 0 <= i < |cs| ==> ts[i] == cs[i].metrics.plasticTons
  {
    seq(|cs|, i requires 0 <= i < |cs| => cs[i].metrics.plasticTons)
  }

  /** The segments' tonnages add up to the corrected total, up to 5.5 kg of rounding per
      segment (0.5 kg when distributing, 5 kg when reporting to 0.01 t). */
  lemma AnalysisTonsAddUp(
    shoreline: seq<LatLng>, heat: seq<HeatPoint>, visible: real, count: real, dist: Distance)
    ensures var a := AnalyzeMissionShoreline(shoreline, heat, visible, count, dist);
      Near(a.corrected.correctedTotalTons, Sum(PlasticTons(a.segments)), |a.segments| as real * 0.0055)
  {
    var total := ComputeCorrectedTons(visible).correctedTotalTons;
    var segs := SegmentShoreline(shoreline, count, dist);
    PipelineTonsClose(segs, heat, total, dist);
  }

  /** Distributing `total` over `segs`, measuring and categorising keeps the sum of the
      reported tonnages within 5.5 kg per segment of `total`. */
  lemma PipelineTonsClose(segs: seq<Segment>, heat: seq<HeatPoint>, total: real, dist: Distance)
    requires |segs| >= 1
    ensures var tons := DistributeTonsToSegments(segs, heat, total, dist);
      var cs := CategorizeSegmentsByDensity(ComputeSegmentMetrics(segs, tons, DefaultParams));
      Near(total, Sum(PlasticTons(cs)), |segs| as real * 0.0055)
  {
    var tons := DistributeTonsToSegments(segs, heat, total, dist);
    var cs := CategorizeSegmentsByDensity(ComputeSegmentMetrics(segs, tons, DefaultParams));
    DistributedTonsAddUp(segs, heat, total, dist);
    MetricsKeepTons(segs, tons);
    ReportedTonsClose(tons, cs);
    NearTrans(total, Sum(tons), Sum(PlasticTons(cs)), |segs| as real * 0.0005, |segs| as real * 0.005);
  }

  /** Each categorised segment reports its tonnage to within 5 kg. */
  lemma MetricsKeepTons(segs: seq<Segment>, tons: seq<real>)
    requires |tons| == |segs|
    ensures var cs := CategorizeSegmentsByDensity(ComputeSegmentMetrics(segs, tons, DefaultParams));
      |cs| == |tons| && forall i :: 0 <= i < |cs| ==> Near(tons[i], cs[i].metrics.plasticTons, 0.005)
  {
  }

  /** Reporting each tonnage to 0.01 t moves the sum by at most 5 kg per segment. */
  lemma ReportedTonsClose(tons: seq<real>, cs: seq<CategorizedSegment>)
    requires |tons| == |cs|
    requires forall i :: 0 <= i < |cs| ==> Near(tons[i], cs[i].metrics.plasticTons, 0.005)
    ensures Near(Sum(tons), Sum(PlasticTons(cs)), |cs| as real * 0.005)
  {
    var ts := PlasticTons(cs);
    assert forall i :: 0 <= i < |tons| ==> -0.005 <= tons[i] - ts[i] <= 0.005;
    SumClose(tons, ts, 0.005);
  }
}
