# Onda Intelligence: shoreline analytics and rule-based calculators in Dafny

This project models the computational core of Onda Intelligence, a beach-pollution
dashboard written in TypeScript, and proves properties of that model. The core has two
parts.

**The shoreline analytics pipeline** (`src/utils/shorelineAnalytics.ts`, modules
`ShorelineAnalytics` and `Resample`) runs these steps in order:

1. Correct a visible tonnage into visible, buried and total tonnages.
2. Cut a coastline polyline by arc length into N equal segments, or into paths that keep
   the coastline's own vertices.
3. Spread the total tonnage over the segments by inverse-distance weighting of heatmap
   points.
4. Measure each segment's area, density and person-hours.
5. Classify segments green, yellow or red at the 33rd and 66th density percentiles.
6. Build a four-corner band polygon per segment.
7. Pick the ship access point nearest the densest segment.

**Small rule-based calculators:**

- The cleanup resource calculator (`MissionCalculator`).
- The policy-gap engine, which ranks the policy items a beach misses (`PolicyGapEngine`).
- The 30-day impact projection (`ImpactModel`).
- The intervention-plan generator and the reassessment simulation (`PlanEngine`).
- The map helpers (`Geo`).
- The mission lookups (`Missions`).

**Supporting modules:**

- `Numeric`: the JavaScript rounding functions (`toFixed`, `Math.round`, `Math.ceil`) over
  exact reals, plus arithmetic lemmas.
- `StableSort`: the stable `Array.prototype.sort` the code relies on.
- `Filtering`: `filter`, `find`, `slice` and de-duplication.
- `Domain`: the records of `src/types/domain.ts`.
- `Geodesy`: points and the abstract distance.
- `Options`: the optional-value datatype.

**How the model relates to the code:**

- Every number is a Dafny `real`, so there is no floating-point error.
- `toFixed(k)` is exact decimal rounding, with halves rounded away from zero.
- Great-circle distance, bearing and the trigonometric point offset are parameters. For
  distance the model knows only that it is never negative (the subset type
  `Geodesy.Distance`).
- The clock, `Math.random`, and date parsing become parameters:
  - `now`, `nowISO` and `today` are passed in.
  - `draw` stands for `Math.random()`.
  - Dates arrive already converted to milliseconds.
- Where the code reads an absent value (`?? 0`, `polyline[0] ?? {0,0}`, a missing
  latest plan), the model has an explicit branch or an `Option`.

**Degenerate polylines:** `segmentShoreline` (src/utils/shorelineAnalytics.ts:77-90) returns
exactly one zero-length segment for a polyline of fewer than two points or of zero total
length, whatever segment count was asked for. `Resample.SegmentShoreline` states this.

## Model

| member | source | states |
|---|---|---|
| ShorelineAnalytics.ComputeCorrectedTons | src/utils/shorelineAnalytics.ts:50-59 | No visible tonnage gives all zeros. All three figures are whole tenths of a ton and none is negative. Otherwise the total is the tenth nearest visible / 0.4 (within 0.05 t), and the buried and visible parts are the tenths nearest 0.6 and 0.4 of that rounded total. |
| ShorelineAnalytics.CorrectedPartsAddUp | src/utils/shorelineAnalytics.ts:54-58 | For every input, the visible and buried parts add up to the corrected total within 0.1 t. |
| ShorelineAnalytics.CorrectedKeepsVisible | src/utils/shorelineAnalytics.ts:54-57 | For a positive input, the visible part reported after the roundings is within 0.07 t of the visible tonnage given. |
| ShorelineAnalytics.CorrectedTonsExample | src/utils/shorelineAnalytics.ts:54-57 | When the three decimal roundings land on given whole numbers of tenths, the result is exactly those tenths. |
| ShorelineAnalytics.CorrectedTonsExamples | src/__tests__/shorelineAnalytics.test.ts:18-50 | 320 t visible is 800 t in total with 480 t buried; 1.3 t is 3.3 t in total with 2.0 t buried and 1.3 t visible; a negative input gives zeros. |
| ShorelineAnalytics.CloserCountsMore | src/utils/shorelineAnalytics.ts:145-149 | Of two heatmap points of the same positive intensity, the nearer one adds strictly more to a segment's score. |
| ShorelineAnalytics.Score | src/utils/shorelineAnalytics.ts:143-151 | A segment's score is never below 0.01 and never below the summed influence; it is one of the two. |
| ShorelineAnalytics.DistributeTonsToSegments | src/utils/shorelineAnalytics.ts:135-155 | One share per segment; for a non-empty list the score total is positive and each share is within 0.0005 t of its exact proportional part; shares of a non-negative tonnage are non-negative. |
| ShorelineAnalytics.SharesAddUp | src/utils/shorelineAnalytics.ts:153-154 | The unrounded proportional shares add up exactly to the tonnage. |
| ShorelineAnalytics.DistributedTonsAddUp | src/utils/shorelineAnalytics.ts:140-155 | The rounded shares add up to the tonnage within 0.0005 t per segment. |
| ShorelineAnalytics.DistributionMonotone | src/utils/shorelineAnalytics.ts:143-154 | A segment scoring at least as high as another never receives a smaller share. |
| ShorelineAnalytics.ShareMonotone | src/utils/shorelineAnalytics.ts:154 | Rounding to three places keeps proportional shares ordered by score. |
| ShorelineAnalytics.EvenSplitWithoutHeatmap | src/utils/shorelineAnalytics.ts:143-154 | With no heatmap points every segment gets the tonnage divided by the number of segments, rounded to 0.001 t. |
| ShorelineAnalytics.PersonHours | src/utils/shorelineAnalytics.ts:176-182 | With a positive hourly rate, the hours are the least whole number whose work covers the tonnage; otherwise 0. No tonnage needs no hours. |
| ShorelineAnalytics.Density | src/utils/shorelineAnalytics.ts:181 | For a positive area, kilograms per square metre rounded to two decimals as `toFixed(2)` does: on the hundredths grid, within 0.005, ties away from zero. 0 for an empty area and 0 for no tonnage. |
| ShorelineAnalytics.MetricsOf | src/utils/shorelineAnalytics.ts:178-194 | A segment's metrics keep its index, ends, midpoint and length, report the area rounded to one decimal and the tonnage to two decimals as `toFixed` does (grid, half-unit error, ties away from zero), and use the density and hours rules. |
| ShorelineAnalytics.ComputeSegmentMetrics | src/utils/shorelineAnalytics.ts:167-196 | One record per segment, in order, each measured with that segment's tonnage or 0 when the list is short. |
| ShorelineAnalytics.SegmentMetricsExample | src/__tests__/shorelineAnalytics.test.ts:102-119 | 100 m carrying 5 t is a 3000 m2 band at 1.67 kg/m2 needing 800 person-hours. |
| ShorelineAnalytics.EmptySegmentNeedsNoWork | src/__tests__/shorelineAnalytics.test.ts:121-128 | A segment carrying no tonnage has density 0, 0 tons and 0 person-hours. |
| ShorelineAnalytics.Ascending | src/utils/shorelineAnalytics.ts:211 | The densities sorted ascending are a permutation of the input. |
| ShorelineAnalytics.Percentile | src/utils/shorelineAnalytics.ts:211-213 | A percentile is one of the densities: the one at index floor(n * p) of the ascending order, always in range. |
| ShorelineAnalytics.CategoryFor | src/utils/shorelineAnalytics.ts:215-219 | Green exactly when at most the 33rd percentile, yellow exactly when above it and at most the 66th, red exactly when above both. |
| ShorelineAnalytics.CategorizeSegmentsByDensity | src/utils/shorelineAnalytics.ts:206-222 | Same length and order, each metric record unchanged, and each category given by the percentile rule over all densities. |
| ShorelineAnalytics.PercentilesOrdered | src/utils/shorelineAnalytics.ts:212-213 | The 33rd percentile never exceeds the 66th. |
| ShorelineAnalytics.CategoryMonotone | src/utils/shorelineAnalytics.ts:215-221 | A denser segment never gets a lower category than a lighter one. |
| ShorelineAnalytics.LightestIsGreen | src/utils/shorelineAnalytics.ts:211-217 | A segment of least density is always green. |
| ShorelineAnalytics.UniformDensityAllGreen | src/utils/shorelineAnalytics.ts:211-217 | When all densities are equal every segment is green. |
| ShorelineAnalytics.BufferSegmentToPolygon | src/utils/shorelineAnalytics.ts:266-289 | Exactly four corners, ordered start-left, end-left, end-right, start-right, each offset by half the width at a right angle to the heading; index, category, tonnage, density and hours are copied. |
| ShorelineAnalytics.ZeroWidthBand | src/utils/shorelineAnalytics.ts:270-284 | If an offset of 0 m leaves a point in place, a band of width 0 is start, end, end, start. |
| ShorelineAnalytics.DegenerateSegmentBand | src/utils/shorelineAnalytics.ts:276-284 | For a segment whose ends coincide, both left corners coincide and both right corners coincide. |
| ShorelineAnalytics.DensestSegment | src/utils/shorelineAnalytics.ts:312-316 | The segment picked has maximal density, and it is the first such. |
| ShorelineAnalytics.NearestAccessPoint | src/utils/shorelineAnalytics.ts:318-327 | The access point picked is no farther from the target than any other, and every earlier one is strictly farther. |
| ShorelineAnalytics.SelectBestShipAccessPoint | src/utils/shorelineAnalytics.ts:305-329 | None exactly when there are no access points; the first one when there are no segments; otherwise the nearest to the densest segment's midpoint. |
| ShorelineAnalytics.SelectedIsClosestToDensest | src/utils/shorelineAnalytics.ts:301-329 | The choice is one of the given access points, no farther than any other from the midpoint of a segment of maximal density. |
| ShorelineAnalytics.AnalyzeMissionShoreline | src/utils/shorelineAnalytics.ts:393-405 | The corrected tonnage is the correction of the visible tonnage. The segments are the cut pieces, given shares of the corrected total weighted by the heatmap, measured with the default parameters and categorised; the i-th has index i and that piece's ends and length. |
| ShorelineAnalytics.MetricsKeepGeometry | src/utils/shorelineAnalytics.ts:184-189 | Measuring and categorising keep each piece's index, ends and length. |
| ShorelineAnalytics.IndexedGeometry | src/utils/shorelineAnalytics.ts:184-189 | For pieces numbered by position, the i-th categorised segment has index i and the i-th piece's ends and length. |
| ShorelineAnalytics.AnalysisTonsAddUp | src/utils/shorelineAnalytics.ts:399-404 | The tonnages reported for the segments add up to the corrected total within 5.5 kg per segment. |
| ShorelineAnalytics.PipelineTonsClose | src/utils/shorelineAnalytics.ts:401-403 | Spreading, measuring and categorising lose at most 5.5 kg per segment of the total. |
| ShorelineAnalytics.MetricsKeepTons | src/utils/shorelineAnalytics.ts:191 | Each reported tonnage is within 5 kg of the share it was given. |
| ShorelineAnalytics.ReportedTonsClose | src/utils/shorelineAnalytics.ts:191 | If each reported tonnage is within 5 kg of its share, the totals are within 5 kg per segment. |
| Resample.SegmentCount | src/utils/shorelineAnalytics.ts:84 | At least 1, and equal to the rounded request whenever that is at least 1. |
| Resample.CumulativeStep | src/utils/shorelineAnalytics.ts:86-90 | Each cumulative distance is the previous one plus the length of the edge between them. |
| Resample.CumulativeMonotone | src/utils/shorelineAnalytics.ts:86-91 | Cumulative distances are non-negative and never decrease along the polyline. |
| Resample.FirstReaching | src/utils/shorelineAnalytics.ts:101-102 | The first vertex from a given one whose cumulative distance reaches the target. |
| Resample.ClampDistance | src/utils/shorelineAnalytics.ts:100 | The target is clamped into [0, total length] and left alone when already inside. |
| Resample.Locate | src/utils/shorelineAnalytics.ts:99-110 | The clamped target lies on the first edge whose end reaches it, at fraction t in [0, 1]; on an edge of positive length t measures the position exactly, and on a zero-length edge t is 0. |
| Resample.EdgeFraction | src/utils/shorelineAnalytics.ts:103-108 | The fraction along an edge of positive length lies in [0, 1], places the point exactly, and is 0 at the start and 1 at the end. |
| Resample.InterpolateAtStart | src/utils/shorelineAnalytics.ts:99-110 | Arc length 0 is the first vertex. |
| Resample.InterpolateAtEnd | src/utils/shorelineAnalytics.ts:99-111 | When the last edge has positive length, the full arc length is the last vertex. |
| Resample.CutIsProduct | src/utils/shorelineAnalytics.ts:118-119 | The start of piece i is i times the piece length. |
| Resample.PointSegment | src/utils/shorelineAnalytics.ts:80-81 | The fallback segment has index 0, length 0, and start, end and midpoint at the one point. |
| Resample.SegmentAt | src/utils/shorelineAnalytics.ts:117-127 | Piece i runs from arc length i * len to (i + 1) * len, has length len, and its midpoint is the plain average of its ends. |
| Resample.Pieces | src/utils/shorelineAnalytics.ts:114-127 | n pieces, piece i being the i-th equal cut. |
| Resample.PiecesMeet | src/utils/shorelineAnalytics.ts:118-119 | Each piece ends where the next one starts. |
| Resample.SegmentShoreline | src/utils/shorelineAnalytics.ts:77-130 | At least one segment. An empty polyline gives one point segment at the origin, and an uncuttable one gives one point segment at its first point. A cuttable one gives exactly SegmentCount pieces of total length / n. Indices run 0, 1, 2, …, midpoints are averages, the first segment starts at the first vertex, and consecutive segments meet. |
| Resample.SegmentShorelineIsPieces | src/utils/shorelineAnalytics.ts:84-130 | A cuttable polyline is cut into the equal pieces of its total length. |
| Resample.SegmentLengthsSum | src/utils/shorelineAnalytics.ts:114-127 | The segment lengths of a cuttable polyline add up to its total length. |
| Resample.SegmentShorelineEndsAtLastVertex | src/utils/shorelineAnalytics.ts:117-119 | When the last edge has positive length, the last segment ends at the last vertex. |
| Resample.IndicesBetween | src/utils/shorelineAnalytics.ts:378-382 | Exactly the vertices whose cumulative distance lies strictly inside the range, in increasing order. |
| Resample.PathAt | src/utils/shorelineAnalytics.ts:371-385 | A path is the interpolated start, then the vertices strictly inside its range, then the interpolated end. |
| Resample.Paths | src/utils/shorelineAnalytics.ts:368-388 | n paths, path s being the s-th one. |
| Resample.ExtractSegmentPaths | src/utils/shorelineAnalytics.ts:338-389 | An empty polyline gives one path holding the origin, and an uncuttable one gives one path holding its first point. A cuttable one gives SegmentCount paths of at least two points each, and the first path starts at the first vertex. |
| Resample.ExtractSegmentPathsIsPaths | src/utils/shorelineAnalytics.ts:343-389 | For a cuttable polyline the paths are the per-piece paths over its equal cut. |
| Resample.PathInterior | src/utils/shorelineAnalytics.ts:377-382 | The inner points of path s are exactly the original vertices strictly inside its arc-length range, in polyline order. |
| Resample.IndicesExact | src/utils/shorelineAnalytics.ts:378-382 | The listed vertices from the second on are exactly those strictly inside the range. |
| Resample.PathsMatchSegments | src/utils/shorelineAnalytics.ts:371-385 | Each path starts and ends where the segment of the same index does. |
| Resample.VertexInOnePath | src/utils/shorelineAnalytics.ts:377-382 | No original vertex lies inside two different paths. |
| Resample.ExtractSegmentPathsEndsAtLastVertex | src/__tests__/shorelineAnalytics.test.ts:185-196 | When the last edge has positive length, the last path ends at the last vertex. |
| MissionCalculator.ComputeResources | src/utils/missionCalculator.ts:15-38 | Each validation branch gives its result and message. The result is valid exactly when no input is negative and either there is no tonnage or rate, duration and people per ship are all positive. A valid result carries no message, and counts are never negative. |
| MissionCalculator.Staffed | src/utils/missionCalculator.ts:34-37 | With all inputs positive the result is valid and needs at least one person and one ship. |
| MissionCalculator.ValidResources | src/utils/missionCalculator.ts:22-37 | A valid result for a positive tonnage implies every input is positive, and the counts are the staffed ones. |
| MissionCalculator.ResourcesAreLeastSufficient | src/utils/missionCalculator.ts:34-35 | People is the least whole number whose work over the duration covers the tonnage; ships is the least whole number that carries them. |
| MissionCalculator.ResourcesMonotone | src/utils/missionCalculator.ts:34-35 | More tonnage with the same rates never needs fewer people or ships. |
| MissionCalculator.ResourceExamples | src/__tests__/missionCalculator.test.ts:7-100 | 100 t at 0.05 t/person/day over 10 days with 12 per ship needs 200 people and 17 ships; 0.001 t needs 1 and 1; 12 t at 1 over 1 day with 6 per ship needs 12 and 2; no tonnage needs none. |
| MissionCalculator.GetHighestPlasticZone | src/utils/missionCalculator.ts:40-43 | None exactly when there are no zones; otherwise a zone of maximal tonnage, the first such. |
| MissionCalculator.HighestZoneExample | src/__tests__/missionCalculator.test.ts:103-110 | Of zones with 10, 50 and 30 t, zone b is picked. |
| MissionCalculator.DeriveDurationDays | src/utils/missionCalculator.ts:45-51 | Always at least 1. 7 without an end date or when the end is not after the start; otherwise the least whole number of days covering the span. |
| MissionCalculator.DurationExample | src/__tests__/missionCalculator.test.ts:118-120 | Thirty-three whole days apart is a 33-day mission. |
| PolicyGapEngine.SeverityWeight | src/utils/policyGapEngine.ts:34-37 | 30 exactly for high, 15 exactly for medium, 5 exactly for low severity. |
| PolicyGapEngine.SignalBoost | src/utils/policyGapEngine.ts:44-53 | 10 exactly for vendor compliance near vendors or waste infrastructure near a river, 8 exactly for community programs with heavy foot traffic, else 0. |
| PolicyGapEngine.TypeBoost | src/utils/policyGapEngine.ts:39-42 | 15 exactly when the beach type lists the category as a priority, 0 exactly when it does not. |
| PolicyGapEngine.PriorityScore | src/utils/policyGapEngine.ts:23-56 | Priority is the sum of 40 times the shortfall below 1, the severity weight, the beach-type boost and the signal boost. Beyond the shortfall term it adds between 5 and 55, and at least 30 for a high-severity item. |
| PolicyGapEngine.TypeBoostAddsFifteen | src/utils/policyGapEngine.ts:39-42 | The same item on a beach type that lists its category ranks exactly 15 above one on a type that does not. |
| PolicyGapEngine.PriorityDecreasesWithScore | src/utils/policyGapEngine.ts:31-32 | For a fixed item, a lower compliance score gives a strictly higher priority. |
| PolicyGapEngine.PriorityIncreasesWithSeverity | src/utils/policyGapEngine.ts:34-37 | Other things equal, low severity ranks below medium, and medium below high. |
| PolicyGapEngine.IsMissing | src/utils/policyGapEngine.ts:67-68 | An item is missing exactly when its score, 0 if absent, is below 0.6. |
| PolicyGapEngine.Gaps | src/utils/policyGapEngine.ts:66-75 | One gap per missing item, in policy order, carrying its position, score and priority. |
| PolicyGapEngine.RankedGaps | src/utils/policyGapEngine.ts:77-78 | A permutation of the gaps by non-increasing priority. Ties keep policy order, no position repeats, and every missing item appears. |
| PolicyGapEngine.LeadCategories | src/utils/policyGapEngine.ts:93 | The categories of the first min(3, n) ranked gaps, in rank order. |
| PolicyGapEngine.FocusCategories | src/utils/policyGapEngine.ts:93 | The distinct categories of the first three ranked gaps, in order of first appearance: at least one when any gap exists, each of the first three represented, nothing else, none repeated. |
| PolicyGapEngine.Notes | src/utils/policyGapEngine.ts:84-101 | Exactly the all-met note when nothing is missing. Otherwise, in this order: the high-priority note with the count of high-severity gaps when there are any, then the focus note naming FocusCategories, then the "almost there" note exactly when 1 to 3 items are missing. |
| PolicyGapEngine.NotesOf | src/utils/policyGapEngine.ts:88-100 | The high-priority note first when its count is positive, then the focus note, then the "almost there" note last when asked for; never the all-met note. |
| PolicyGapEngine.NoteTexts | src/utils/policyGapEngine.ts:84-101 | One text per note, the k-th the rendering of the k-th note. |
| PolicyGapEngine.HighNote | src/utils/policyGapEngine.ts:88-91 | The high-priority note opens with the decimal text of the count. |
| PolicyGapEngine.FocusNote | src/utils/policyGapEngine.ts:93-96 | The focus note opens with "Focus areas: " and ends with a full stop. |
| PolicyGapEngine.ComputePolicyGaps | src/utils/policyGapEngine.ts:58-108 | The missing ids are the ranked gaps' ids, the notes are the rendered texts of their notes, and the top ids are the first min(5, n) of them. |
| PolicyGapEngine.MissingIdsExact | src/utils/policyGapEngine.ts:66-80 | An id is listed as missing exactly when it belongs to a missing item. |
| PolicyGapEngine.MissingIdsSound | src/utils/policyGapEngine.ts:66-80 | Every listed id belongs to a missing item. |
| PolicyGapEngine.MissingIdsComplete | src/utils/policyGapEngine.ts:66-80 | Every missing item's id is listed. |
| PolicyGapEngine.MissingIdsDistinct | src/utils/policyGapEngine.ts:66-80 | With distinct item ids, no id is listed twice. |
| PolicyGapEngine.MissingIdsByPriority | src/utils/policyGapEngine.ts:77-80 | Listed ids are in non-increasing priority order, ties in policy order. |
| PolicyGapEngine.CountPolicyGaps | src/utils/policyGapEngine.ts:111-119 | At most the number of items, and 0 exactly when nothing is missing. |
| PolicyGapEngine.NoneMissing | src/utils/policyGapEngine.ts:115-118 | No missing positions exactly when no item is missing. |
| PolicyGapEngine.CountMatchesMissing | src/utils/policyGapEngine.ts:111-119 | The gap count equals the number of missing ids the full analysis lists. |
| ImpactModel.StepImpactScore | src/utils/impactModel.ts:20 | At most 1, and non-negative for a non-negative completion rate. |
| ImpactModel.LinkedIds | src/utils/impactModel.ts:23 | Exactly the ids some step links to. |
| ImpactModel.PolicyCoverage | src/utils/impactModel.ts:24 | Between 0 and 1, reaching 1 exactly when 0.08 per distinct linked id reaches 1. |
| ImpactModel.CoverageAboveThird | src/utils/impactModel.ts:23-49 | Coverage passes 0.3 exactly when four or more distinct ids are linked. |
| ImpactModel.CoverageIgnoresDuplicates | src/utils/impactModel.ts:23-24 | A step linking only to ids already covered leaves the coverage unchanged. |
| ImpactModel.TrashReductionPct | src/utils/impactModel.ts:30-31 | A whole percentage between 8 and 35. |
| ImpactModel.ScoreImprovement | src/utils/impactModel.ts:34-35 | A whole number of points between 5 and 25. |
| ImpactModel.TrashReductionMonotone | src/utils/impactModel.ts:26-31 | For non-negative inputs, more step impact, more coverage, a dirtier beach or a higher completion rate never lowers the projected reduction. |
| ImpactModel.ScoreImprovementMonotone | src/utils/impactModel.ts:26-35 | For non-negative inputs, more step impact, more coverage, a dirtier beach or a higher completion rate never lowers the projected improvement. |
| ImpactModel.ClampRoundMonotone | src/utils/impactModel.ts:31-35 | Clamping into a range and rounding keeps an order. |
| ImpactModel.ConfidenceScore | src/utils/impactModel.ts:38-39 | 0.3 + 0.4 step impact + 0.3 coverage for a history of five or more entries, 0.1 + the same otherwise; between 0.1 and 1 for fractional inputs. |
| ImpactModel.ConfidenceFor | src/utils/impactModel.ts:40-41 | High exactly from 0.7, medium exactly in [0.4, 0.7), low exactly below 0.4. |
| ImpactModel.ConfidenceMonotone | src/utils/impactModel.ts:38-41 | More history, more step impact and more coverage never lower the confidence level. |
| ImpactModel.ScoresAreFractions | src/utils/impactModel.ts:20-24 | For a completion rate in [0, 1], step impact and coverage both lie in [0, 1]. |
| ImpactModel.LeadBullets | src/utils/impactModel.ts:46-51 | The high-impact bullet exactly when there are high-impact steps, then the policy bullet exactly when coverage passes 0.3; nothing else, in push order. |
| ImpactModel.TailBullets | src/utils/impactModel.ts:56-65 | The foot-traffic, river and completion bullets, in that order, each exactly under its own condition; nothing else. |
| ImpactModel.Bullets | src/utils/impactModel.ts:43-65 | One to six bullets in push order, the tonnage bullet always present and carrying the given tonnage. |
| ImpactModel.PushOrderJoins | src/utils/impactModel.ts:43-65 | The leading bullets, the tonnage bullet and the trailing bullets joined stay in push order. |
| ImpactModel.LeadBulletsAppear | src/utils/impactModel.ts:46-51 | In the full list, the high-impact and policy bullets appear exactly under their conditions. |
| ImpactModel.TailBulletsAppear | src/utils/impactModel.ts:56-65 | In the full list, the foot-traffic, river and completion bullets appear exactly under their conditions. |
| ImpactModel.Rationale | src/utils/impactModel.ts:43-65 | Bullets in push order: high-impact exactly with a high-impact step, policy exactly with four or more distinct linked ids, the tonnage bullet always, carrying the monthly tonnage times the reduction percentage rounded to 0.1 t, foot-traffic above 0.7, river above 0.5, and the completion bullet exactly below full completion. |
| ImpactModel.ComputeProjectedImpact | src/utils/impactModel.ts:7-73 | The reduction and the improvement are the projections of the plan's step impact and coverage for a severity of the pollution score over 100 at the given completion rate, so they lie in [8, 35] and [5, 25]. The confidence level follows the thresholds on the confidence score, and the bullets are the rationale for the steps, signals and reduction: the completion bullet exactly below full completion, the high-impact bullet exactly with a high-impact step, the policy bullet exactly with four or more distinct linked ids. |
| ImpactModel.EmptyPlanProjectsFloor | src/utils/impactModel.ts:14-35 | A plan without steps projects 8 % reduction and 5 points of improvement. |
| PlanEngine.Templates | src/utils/planEngine.ts:40-56 | Fifteen templates, in the listed order. |
| PlanEngine.FindLinkedPolicyItems | src/utils/planEngine.ts:58-62 | The ids of the policy items in the template's categories, in policy order. |
| PlanEngine.LinkedItemsExact | src/utils/planEngine.ts:58-62 | An id is linked exactly when some item with that id is in one of the template's categories. |
| PlanEngine.StepCount | src/utils/planEngine.ts:67 | 8 exactly from score 60, 6 exactly in [35, 60), 4 exactly below 35; never more than the templates. |
| PlanEngine.FindItem | src/utils/planEngine.ts:74 | None exactly when no item has the id; otherwise an item with that id from the set. |
| PlanEngine.MissingCategories | src/utils/planEngine.ts:72-76 | Exactly the categories of the policy items named by the top ids. |
| PlanEngine.TemplateKey | src/utils/planEngine.ts:79-85 | Templates addressing a missing category key above 10, others at most 3, so matching comes first and impact breaks ties. |
| PlanEngine.SortTemplates | src/utils/planEngine.ts:79-85 | A permutation in which every matching template precedes every other, and within each group impact never increases. |
| PlanEngine.SortTemplatesStable | src/utils/planEngine.ts:79-85 | Templates with equal keys keep their relative order. |
| PlanEngine.MakeStep | src/utils/planEngine.ts:87-95 | A to-do step carrying the template's title, category, owner and impact, its linked items, and an id ending in its index. |
| PlanEngine.StepIdsDistinct | src/utils/planEngine.ts:88 | Steps of different indices get different ids. |
| PlanEngine.PlanSteps | src/utils/planEngine.ts:87-95 | The first count sorted templates, turned into steps with their indices. |
| PlanEngine.MakeCitation | src/utils/planEngine.ts:101-107 | The URL is the reference with the id as fragment, and the caption names the policy set and the item's title, or the id when no item has it. |
| PlanEngine.Citations | src/utils/planEngine.ts:101-107 | min(3, n) citations, one per leading top id. |
| PlanEngine.SupportSteps | src/utils/planEngine.ts:66-95 | StepCount steps, the k-th made from the k-th template in ranked order, every one to-do. |
| PlanEngine.GenerateSupportPlan | src/utils/planEngine.ts:66-130 | The policy gaps are the engine's and the steps are SupportSteps for their top ids. The impact is projected for full completion, the citations are those of the leading min(3, n) top ids, and the id and timestamp are as given. |
| PlanEngine.StatusCountsSum | src/utils/planEngine.ts:138-140 | Done, in-progress and to-do steps add up to all steps. |
| PlanEngine.CountStatusZero | src/utils/planEngine.ts:138-139 | No step has a status exactly when its count is 0. |
| PlanEngine.LatestPlan | src/utils/planEngine.ts:135 | None exactly without interventions; otherwise the last one. |
| PlanEngine.Share | src/utils/planEngine.ts:140 | In [0, 1], times the step count equal to done plus 0.3 per in-progress step; 1 exactly when all are done, 0 exactly when none is started. |
| PlanEngine.CompletionRate | src/utils/planEngine.ts:135-141 | Undefined exactly for a latest plan without steps, 0 without a plan, otherwise in [0, 1]. |
| PlanEngine.StepsRate | src/utils/planEngine.ts:137-140 | Undefined exactly for no steps, otherwise in [0, 1]. |
| PlanEngine.StepsRateWeighted | src/utils/planEngine.ts:138-140 | For a non-empty plan the rate is done steps plus 0.3 per step in progress, over the step count. |
| PlanEngine.CompletionRateWeighted | src/utils/planEngine.ts:135-141 | For a latest plan with steps the rate is done steps plus 0.3 per step in progress, over the step count. |
| PlanEngine.AllDone | src/utils/planEngine.ts:138-140 | Every step is done exactly when the done count equals the step count. |
| PlanEngine.NoneStarted | src/utils/planEngine.ts:138-140 | No step is started exactly when the done and in-progress counts are both 0. |
| PlanEngine.CompletionRateFull | src/utils/planEngine.ts:135-141 | The rate is 1 exactly when the latest plan has steps and all are done. |
| PlanEngine.CompletionRateZero | src/utils/planEngine.ts:135-141 | The rate is 0 exactly with no plan, or with a non-empty latest plan whose steps are all to-do. |
| PlanEngine.ScoreDelta | src/utils/planEngine.ts:143-147 | From 0.7 the score drops by 16 to 20, from 0.3 by 4 to 6. Below that, or with no rate, and for a draw in [0, 1), a beach needing assistance worsens by 3 to 6 and any other moves by -1 to 2. |
| PlanEngine.NewScore | src/utils/planEngine.ts:149 | In [0, 100], and the plain sum whenever that is already in range. |
| PlanEngine.NewTrash | src/utils/planEngine.ts:150 | The formula 0.8 + 7 per 100 points of score rounded to one decimal as `toFixed(1)` does: a whole number of tenths within 0.05, an exact half going up. |
| PlanEngine.NewTrashExamples | src/utils/planEngine.ts:150 | Scores 0 and 100 give 0.8 and 7.8 tons, and score 45, exactly half-way at 3.95, gives 4.0 as `toFixed(1)` does. |
| PlanEngine.Bump | src/utils/planEngine.ts:160-161 | The item's score becomes min(1, old + 0.15), absent counting as 0; every other score and the audit date stay. |
| PlanEngine.BumpAllClosedForm | src/utils/planEngine.ts:158-163 | An id listed k > 0 times ends at min(1, old + 0.15 k); an unlisted id is untouched. |
| PlanEngine.DoneLinks | src/utils/planEngine.ts:157-159 | Exactly the ids some done step links to. |
| PlanEngine.NewCompliance | src/utils/planEngine.ts:155-165 | Unchanged unless the latest plan has positive progress, in which case the audit date becomes today. |
| PlanEngine.SimulateReassessment | src/utils/planEngine.ts:134-176 | The score is the clamped old score plus the delta for the beach's completion rate, status and draw, with the status of its thresholds; trash is `NewTrash` of the new score: its formula rounded to tenths, halves going up. History gains one entry carrying them, the date and compliance are updated, and identity, location, signals and plans are unchanged. From a 0.7 rate the score drops by at least 16, down to 0. |
| PlanEngine.ReassessedCompliance | src/utils/planEngine.ts:155-165 | After a reassessment with progress, an id linked k > 0 times from done steps is at min(1, old + 0.15 k), and every other id is unchanged. |
| PlanEngine.OccursWhenLinked | src/utils/planEngine.ts:157-159 | An id is bumped at least once exactly when some done step links to it. |
| Geo.Others | src/utils/geo.ts:24 | Exactly the beaches without the target's id. |
| Geo.ByDistance | src/utils/geo.ts:23-26 | The other beaches, as a permutation, by non-decreasing distance. |
| Geo.NearestBeaches | src/utils/geo.ts:22-29 | Never the target's id, only given beaches and none more often than the input holds it, min(n, others) of them for n >= 0, by non-decreasing distance, and no omitted other beach is strictly nearer than one returned. |
| Geo.TakeFromSorted | src/utils/geo.ts:24-27 | A prefix of the distance order holds only other beaches from the input, each no more often than the input does. |
| Geo.NoneOmittedNearer | src/utils/geo.ts:26-27 | Nothing left out of a prefix of the distance order is nearer than what it holds. |
| Geo.ComputeBounds | src/utils/geo.ts:32-51 | Both corners at the origin for no beaches. Otherwise the corners minus the padding are the smallest and largest latitude and longitude of the beaches, and with non-negative padding every beach is inside. |
| Geo.WidenEncloses | src/utils/geo.ts:41-46 | Widening by the next beach encloses the longer prefix. |
| Geo.WidenAttains | src/utils/geo.ts:41-46 | Widening keeps each corner coordinate some beach's. |
| Missions.GetMissionById | src/data/missions.ts:292-294 | None exactly when no mission has the id; otherwise the first mission with it. |
| Missions.FindsEveryMission | src/data/missions.ts:292-294 | With distinct ids every mission is found by its own id. |
| Missions.GroupMissionsByPriority | src/data/missions.ts:300-307 | Each bucket is the input's missions of that priority in input order, and the bucket sizes add up to the input length. |
| Missions.GroupStep | src/data/missions.ts:301-305 | Pushing the next mission keeps every bucket the filter of the missions seen so far. |
| Missions.BucketsAreFilters | src/data/missions.ts:300-307 | Three buckets holding the three priority filters partition the missions. |
| Missions.BucketMembers | src/data/missions.ts:301-305 | A mission is in a bucket exactly when it is an input mission of that priority. |
| Domain.ScoreOf | src/utils/policyGapEngine.ts:67 | The recorded score of an item, or 0 when none is recorded. |
| Domain.StatusFor | src/utils/planEngine.ts:151-152 | Needs assistance exactly from 60, making progress exactly in [35, 60), steady exactly below 35. |
| Geodesy.Midpoint | src/utils/shorelineAnalytics.ts:124 | Equally far in latitude and in longitude from both ends. |
| Geodesy.Lerp | src/utils/shorelineAnalytics.ts:104-108 | Each coordinate has moved from the start by fraction t of the way to the end; fraction 0 is the start and fraction 1 the end. |
| Geodesy.LerpReversed | src/utils/shorelineAnalytics.ts:104-108 | Going a fraction t from a to b lands where going 1 - t from b to a does. |
| Geodesy.LerpBetween | src/utils/shorelineAnalytics.ts:104-108 | For t in [0, 1] each coordinate lies between those of the two ends. |
| StableSort.SortDesc | src/utils/policyGapEngine.ts:78 | The elements in an order of non-increasing key. |
| StableSort.SortDescIsPermutation | src/utils/policyGapEngine.ts:78 | Sorting neither adds nor drops elements. |
| StableSort.SortDescIsStable | src/utils/policyGapEngine.ts:78 | Elements of equal key keep their input order. |
| Filtering.Find | src/data/missions.ts:293 | None exactly when nothing matches; otherwise the first match. |
| Filtering.Take | src/utils/policyGapEngine.ts:81 | The prefix that slice(0, n) gives, negative n included. |
| Filtering.Dedup | src/utils/policyGapEngine.ts:93 | Exactly the elements of the input, none repeated, in order of first appearance. |
| Filtering.FirstIndex | src/utils/policyGapEngine.ts:93 | The position of the first occurrence: it holds the element and no earlier position does. |
| Numeric.ToFixed | src/utils/shorelineAnalytics.ts:54 | A whole number of units of the last kept decimal, within half a unit of the input, with the sign kept; a value exactly half-way goes away from zero. |
| Numeric.ToFixedMonotone | src/utils/shorelineAnalytics.ts:154 | Rounding to fixed decimals never reverses an order. |
| Numeric.CeilDivLeast | src/utils/missionCalculator.ts:34-35 | The ceiling of a quotient is the least whole multiple count reaching the dividend. |
| Numeric.ParseNatToString | src/utils/planEngine.ts:88 | A number's decimal text reads back as the number. |
| Numeric.NatToStringInjective | src/utils/planEngine.ts:88 | Different numbers have different decimal texts. |

## Left out

- Great-circle distance, bearing and point offset: their trigonometric bodies, in
  `haversineMeters`, `haversineKm`, `bearing` and `offsetPoint`. They are parameters. For
  distance the model knows only that it is never negative, so geometric facts such as a
  band straddling the equator are out of reach.
- Floating-point behaviour: every number is an exact real. `toFixed` is exact decimal
  rounding, so binary representation artefacts, `NaN` and `Infinity` are not modelled.
- PlanEngine.CompletionRate: a latest plan with no steps, where the code divides 0 by 0
  and gets `NaN`, is `None`. The model then takes the low-rate branch and leaves compliance
  alone, as the code's comparisons with `NaN` do.
- Default arguments: `segmentCount = 10` (src/utils/shorelineAnalytics.ts:397), `n = 3`
  (src/utils/geo.ts:22) and `paddingDeg = 0.01` (src/utils/geo.ts:34) are the constants
  `DefaultSegmentCount`, `DefaultNearestCount` and `DefaultPaddingDeg`. The functions take
  the value as an explicit parameter, so a caller omitting it passes the constant.
- `Date.now`, `new Date().toISOString()` and `Math.random`: the time stamps and the random
  draw are parameters, and the range of `ScoreDelta` is stated for a draw in [0, 1).
- MissionCalculator.DeriveDurationDays: takes the two dates as milliseconds. An
  unparsable or missing date is `None`; parsing ISO strings is not modelled.
- PlanEngine.GenerateSupportPlan: the summary text is produced, but no property of its
  wording is stated. The constant `generatedBy: 'mock-ai'` field is dropped.
- PlanEngine.SortedTemplates: only its length is stated. Its ordering is stated by
  `SortTemplates`, which it applies to the template list.
- ImpactModel.ComputeProjectedImpact: rationale bullets are a datatype naming each
  bullet and its number, not rendered English sentences.
- `STATUS_LABEL` and the status colour maps (src/utils/planEngine.ts:12-28): display
  strings only.
- Mascot, description and other display fields of beaches and missions; the mock
  `MISSIONS` array and the other mock data sets and adapters.
- The React components, routes, local-storage state, theme and feature flags; the
  unimplemented hotspot service stubs; `messaging.ts` and `impactEquivalents.ts`.
