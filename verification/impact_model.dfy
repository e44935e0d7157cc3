/** The impact model of src/utils/impactModel.ts: the 30-day projection of a plan's
    effect on a beach, with its confidence and the rationale shown with it. */
module ImpactModel {
  import opened Numeric
  import opened Domain
  import opened Filtering

  /** How many steps of the plan have the given expected impact. */
  function CountImpact(steps: seq<InterventionStep>, level: Level): (n: nat)
    ensures n <= |steps|
  {
    |Filter(steps, (s: InterventionStep) => s.expectedImpact == level)|
  }

  /** The steps' impact, weighted 0.15 per high, 0.08 per medium and 0.03 per low step,
      scaled by the completion rate and capped at 1. */
  function StepImpactScore(steps: seq<InterventionStep>, completionRate: real): (r: real)
    ensures r <= 1.0
    ensures 0.0 <= completionRate ==> 0.0 <= r
  {
    var weighted := CountImpact(steps, High) as real * 0.15
      + CountImpact(steps, Medium) as real * 0.08
      + CountImpact(steps, Low) as real * 0.03;
    MulNonNegative(weighted, completionRate);
    Min(1.0, weighted * completionRate)
  }

  /** Some step of the plan links to `id`. */
  predicate LinkedBy(steps: seq<InterventionStep>, id: string)
  {
    exists k :: 0 <= k < |steps| && id in steps[k].linkedPolicyItemIds
  }

  /** The distinct policy item ids the plan's steps link to. */
  function LinkedIds(steps: seq<InterventionStep>): (ids: set<string>)
    ensures forall k, id :: 0 <= k < |steps| && id in steps[k].linkedPolicyItemIds ==> id in ids
    ensures forall id :: id in ids ==> LinkedBy(steps, id)
  {
    if |steps| == 0 then {}
    else
      var init := steps[..|steps| - 1];
      var last := steps[|steps| - 1].linkedPolicyItemIds;
      var ids := LinkedIds(init) + (set id | id in last);
      assert forall id :: id in ids ==> LinkedBy(steps, id) by {
        forall id | id in ids
          ensures LinkedBy(steps, id)
        {
          if id in LinkedIds(init) {
            var k :| 0 <= k < |init| && id in init[k].linkedPolicyItemIds;
            assert steps[k] == init[k];
          } else {
            assert id in steps[|steps| - 1].linkedPolicyItemIds;
          }
        }
      }
      ids
  }

  /** 0.08 per distinct linked policy item, capped at 1. */
  function PolicyCoverage(steps: seq<InterventionStep>): (r: real)
    ensures 0.0 <= r <= 1.0
    ensures r == 1.0 <==> |LinkedIds(steps)| as real * 0.08 >= 1.0
  {
    Min(1.0, |LinkedIds(steps)| as real * 0.08)
  }

  /** The coverage passes 0.3 from the fourth distinct linked item on. */
  lemma CoverageAboveThird(steps: seq<InterventionStep>)
    ensures PolicyCoverage(steps) > 0.3 <==> |LinkedIds(steps)| >= 4
  {
    var n := |LinkedIds(steps)|;
    if n >= 4 {
      assert n as real * 0.08 >= 0.32;
    } else {
      assert n as real * 0.08 <= 0.24;
    }
  }

  /** A step linking only to items the plan already covers adds no coverage. */
  lemma CoverageIgnoresDuplicates(steps: seq<InterventionStep>, extra: InterventionStep)
    requires forall id :: id in extra.linkedPolicyItemIds ==> id in LinkedIds(steps)
    ensures PolicyCoverage(steps + [extra]) == PolicyCoverage(steps)
  {
    assert (steps + [extra])[..|steps|] == steps;
    assert LinkedIds(steps + [extra]) == LinkedIds(steps);
  }

  /** The unclamped trash reduction, as a fraction. */
  function TrashRaw(stepScore: real, coverage: real, severity: real, completionRate: real): real
  {
    (stepScore * 0.25 + coverage * 0.1) * severity * completionRate
  }

  /** The trash reduction in percent: the weighted step impact and coverage, scaled by
      the pollution score and the completion rate, offset by 8 and clamped to 8 .. 35
      before rounding. */
  function TrashReductionPct(stepScore: real, coverage: real, severity: real, completionRate: real): (p: int)
    ensures 8 <= p <= 35
  {
    Round(Max(8.0, Min(35.0, TrashRaw(stepScore, coverage, severity, completionRate) * 100.0 + 8.0)))
  }

  /** The score improvement before the clamp and the rounding. */
  function ScoreRaw(stepScore: real, coverage: real, severity: real, completionRate: real): real
  {
    (stepScore * 18.0 * severity + coverage * 7.0) * completionRate
  }

  /** The score improvement in points, clamped to 5 .. 25 before rounding. */
  function ScoreImprovement(stepScore: real, coverage: real, severity: real, completionRate: real): (p: int)
    ensures 5 <= p <= 25
  {
    Round(Max(5.0, Min(25.0, ScoreRaw(stepScore, coverage, severity, completionRate))))
  }

  /** A stronger plan, a dirtier beach or more completion never lowers the projected
      trash reduction. */
  lemma TrashReductionMonotone(s1: real, c1: real, v1: real, r1: real, s2: real, c2: real, v2: real, r2: real)
    requires 0.0 <= s1 <= s2 && 0.0 <= c1 <= c2 && 0.0 <= v1 <= v2 && 0.0 <= r1 <= r2
    ensures TrashReductionPct(s1, c1, v1, r1) <= TrashReductionPct(s2, c2, v2, r2)
  {
    var raw1, raw2 := TrashRaw(s1, c1, v1, r1), TrashRaw(s2, c2, v2, r2);
    var w1, w2 := s1 * 0.25 + c1 * 0.1, s2 * 0.25 + c2 * 0.1;
    ProductMonotone(w1, v1, w2, v2);
    ProductMonotone(w1 * v1, r1, w2 * v2, r2);
    ClampRoundMonotone(8.0, 35.0, raw1 * 100.0 + 8.0, raw2 * 100.0 + 8.0);
  }

  /** A stronger plan, a dirtier beach or more completion never lowers the projected
      score improvement. */
  lemma ScoreImprovementMonotone(s1: real, c1: real, v1: real, r1: real, s2: real, c2: real, v2: real, r2: real)
    requires 0.0 <= s1 <= s2 && 0.0 <= c1 <= c2 && 0.0 <= v1 <= v2 && 0.0 <= r1 <= r2
    ensures ScoreImprovement(s1, c1, v1, r1) <= ScoreImprovement(s2, c2, v2, r2)
  {
    ScoreRawMonotone(s1, c1, v1, r1, s2, c2, v2, r2);
    ClampRoundMonotone(5.0, 25.0, ScoreRaw(s1, c1, v1, r1), ScoreRaw(s2, c2, v2, r2));
  }

  lemma ScoreRawMonotone(s1: real, c1: real, v1: real, r1: real, s2: real, c2: real, v2: real, r2: real)
    requires 0.0 <= s1 <= s2 && 0.0 <= c1 <= c2 && 0.0 <= v1 <= v2 && 0.0 <= r1 <= r2
    ensures ScoreRaw(s1, c1, v1, r1) <= ScoreRaw(s2, c2, v2, r2)
  {
    var w1, w2 := s1 * 18.0 * v1 + c1 * 7.0, s2 * 18.0 * v2 + c2 * 7.0;
    ProductMonotone(s1 * 18.0, v1, s2 * 18.0, v2);
    ProductMonotone(w1, r1, w2, r2);
  }

  /** Clamping into a range and rounding keeps an order. */
  lemma ClampRoundMonotone(lo: real, hi: real, x: real, y: real)
    requires x <= y
    ensures Round(Max(lo, Min(hi, x))) <= Round(Max(lo, Min(hi, y)))
  {
    FloorMonotone(Max(lo, Min(hi, x)) + 0.5, Max(lo, Min(hi, y)) + 0.5);
  }

  /** A plan without steps projects the floor of both ranges: 8 % and 5 points. */
  lemma EmptyPlanProjectsFloor(beach: Beach, completionRate: real)
    ensures ComputeProjectedImpact(beach, [], completionRate).trashReductionPct30d == 8
    ensures ComputeProjectedImpact(beach, [], completionRate).scoreImprovement30d == 5
  {
    assert StepImpactScore([], completionRate) == 0.0;
    assert LinkedIds([]) == {};
    assert PolicyCoverage([]) == 0.0;
  }

  /** Data completeness and plan coverage: 0.3 for a history of at least five entries
      (0.1 otherwise), plus 0.4 of the step impact and 0.3 of the policy coverage. */
  function ConfidenceScore(historyLength: nat, stepScore: real, coverage: real): (c: real)
    ensures 0.0 <= stepScore <= 1.0 && 0.0 <= coverage <= 1.0 ==> 0.1 <= c <= 1.0
    ensures historyLength >= 5 ==> c == 0.3 + 0.4 * stepScore + 0.3 * coverage
    ensures historyLength < 5 ==> c == 0.1 + 0.4 * stepScore + 0.3 * coverage
    ensures historyLength >= 5 ==> c == ConfidenceScore(0, stepScore, coverage) + 0.2
  {
    (if historyLength >= 5 then 0.3 else 0.1) + stepScore * 0.4 + coverage * 0.3
  }

  /** High from 0.7, medium from 0.4, low below. */
  function ConfidenceFor(score: real): (level: Level)
    ensures level == High <==> score >= 0.7
    ensures level == Medium <==> 0.4 <= score < 0.7
    ensures level == Low <==> score < 0.4
  {
    if score >= 0.7 then High else if score >= 0.4 then Medium else Low
  }

  function LevelRank(level: Level): (r: nat)
    ensures 1 <= r <= 3
  {
    match level
    case Low => 1
    case Medium => 2
    case High => 3
  }

  /** More history, more step impact or more coverage never lowers the confidence. */
  lemma ConfidenceMonotone(n1: nat, s1: real, c1: real, n2: nat, s2: real, c2: real)
    requires n1 <= n2 && s1 <= s2 && c1 <= c2
    ensures LevelRank(ConfidenceFor(ConfidenceScore(n1, s1, c1)))
      <= LevelRank(ConfidenceFor(ConfidenceScore(n2, s2, c2)))
  {
  }

  /** The one-bullet sequence when `c` holds, the empty one otherwise. */
  function When(c: bool, x: Bullet): (r: seq<Bullet>)
    ensures forall y :: y in r <==> c && y == x
    ensures |r| <= 1
  {
    if c then [x] else []
  }

  /** The place of a bullet's kind in the order the rationale pushes them. */
  function BulletRank(x: Bullet): nat
  {
    match x
    case HighImpactActions(_) => 0
    case PolicyGapsAddressed(_) => 1
    case TonsReduced(_) => 2
    case FootTraffic => 3
    case RiverProximity => 4
    case AssumedCompletion(_) => 5
  }

  /** The bullets come in the order they are pushed, each kind at most once. */
  predicate InPushOrder(b: seq<Bullet>)
  {
    forall i, j :: 0 <= i < j < |b| ==> BulletRank(b[i]) < BulletRank(b[j])
  }

  /** The bullets before the tonnage: the high-impact steps and the policy gaps. */
  function LeadBullets(highSteps: nat, distinctLinked: nat, coverage: real): (b: seq<Bullet>)
    ensures InPushOrder(b)
    ensures HighImpactActions(highSteps) in b <==> highSteps > 0
    ensures (exists x :: x in b && x.HighImpactActions?) <==> highSteps > 0
    ensures PolicyGapsAddressed(distinctLinked) in b <==> coverage > 0.3
    ensures forall x :: x in b ==> x.HighImpactActions? || x.PolicyGapsAddressed?
    ensures |b| <= 2
  {
    When(highSteps > 0, HighImpactActions(highSteps)) + When(coverage > 0.3, PolicyGapsAddressed(distinctLinked))
  }

  /** The bullets after the tonnage: the signals and the assumed completion. */
  function TailBullets(signals: Signals, completionRate: real): (b: seq<Bullet>)
    ensures InPushOrder(b)
    ensures FootTraffic in b <==> signals.footTrafficIndex > 0.7
    ensures RiverProximity in b <==> signals.riverProximityIndex > 0.5
    ensures AssumedCompletion(Round(completionRate * 100.0)) in b <==> completionRate < 1.0
    ensures (exists x :: x in b && x.AssumedCompletion?) <==> completionRate < 1.0
    ensures forall x :: x in b ==> x.FootTraffic? || x.RiverProximity? || x.AssumedCompletion?
    ensures |b| <= 3
  {
    When(signals.footTrafficIndex > 0.7, FootTraffic)
    + When(signals.riverProximityIndex > 0.5, RiverProximity)
    + When(completionRate < 1.0, AssumedCompletion(Round(completionRate * 100.0)))
  }

  /** The bullets of the rationale, in the order they are pushed. */
  function Bullets(highSteps: nat, distinctLinked: nat, coverage: real, tonsReduced: real,
                   signals: Signals, completionRate: real): (b: seq<Bullet>)
    ensures TonsReduced(tonsReduced) in b
    ensures forall x :: x in b && x.TonsReduced? ==> x == TonsReduced(tonsReduced)
    ensures InPushOrder(b)
    ensures 1 <= |b| <= 6
  {
    var lead := LeadBullets(highSteps, distinctLinked, coverage);
    var tail := TailBullets(signals, completionRate);
    PushOrderJoins(lead, TonsReduced(tonsReduced), tail);
    lead + [TonsReduced(tonsReduced)] + tail
  }

  /** Bullets ranked below the tonnage, the tonnage, then bullets ranked above it, are in
      push order. */
  lemma PushOrderJoins(lead: seq<Bullet>, tons: Bullet, tail: seq<Bullet>)
    requires InPushOrder(lead) && InPushOrder(tail) && tons.TonsReduced?
    requires forall x :: x in lead ==> x.HighImpactActions? || x.PolicyGapsAddressed?
    requires forall x :: x in tail ==> x.FootTraffic? || x.RiverProximity? || x.AssumedCompletion?
    ensures InPushOrder(lead + [tons] + tail)
    ensures forall x :: x in lead + [tons] + tail && x.TonsReduced? ==> x == tons
  {
    var b := lead + [tons] + tail;
    forall i, j | 0 <= i < j < |b|
      ensures BulletRank(b[i]) < BulletRank(b[j])
    {
      if j < |lead| {
        assert b[i] == lead[i] && b[j] == lead[j];
      } else if j == |lead| {
        assert b[i] == lead[i] && lead[i] in lead;
      } else if i > |lead| {
        assert b[i] == tail[i - |lead| - 1] && b[j] == tail[j - |lead| - 1];
      } else {
        assert b[j] == tail[j - |lead| - 1] && tail[j - |lead| - 1] in tail;
        if i < |lead| {
          assert b[i] == lead[i] && lead[i] in lead;
        }
      }
    }
  }

  /** Which of the first bullets appear. */
  lemma LeadBulletsAppear(highSteps: nat, distinctLinked: nat, coverage: real, tonsReduced: real,
                          signals: Signals, completionRate: real)
    ensures var b := Bullets(highSteps, distinctLinked, coverage, tonsReduced, signals, completionRate);
      && (HighImpactActions(highSteps) in b <==> highSteps > 0)
      && ((exists x :: x in b && x.HighImpactActions?) <==> highSteps > 0)
      && (PolicyGapsAddressed(distinctLinked) in b <==> coverage > 0.3)
  {
    var lead := LeadBullets(highSteps, distinctLinked, coverage);
    var tail := TailBullets(signals, completionRate);
    var b := lead + [TonsReduced(tonsReduced)] + tail;
    assert b == Bullets(highSteps, distinctLinked, coverage, tonsReduced, signals, completionRate);
    assert forall x :: x in b <==> x in lead || x == TonsReduced(tonsReduced) || x in tail;
    assert forall x :: x in tail ==> !x.HighImpactActions? && !x.PolicyGapsAddressed?;
  }

  /** Which of the last bullets appear. */
  lemma TailBulletsAppear(highSteps: nat, distinctLinked: nat, coverage: real, tonsReduced: real,
                          signals: Signals, completionRate: real)
    ensures var b := Bullets(highSteps, distinctLinked, coverage, tonsReduced, signals, completionRate);
      && (FootTraffic in b <==> signals.footTrafficIndex > 0.7)
      && (RiverProximity in b <==> signals.riverProximityIndex > 0.5)
      && (AssumedCompletion(Round(completionRate * 100.0)) in b <==> completionRate < 1.0)
      && ((exists x :: x in b && x.AssumedCompletion?) <==> completionRate < 1.0)
  {
    var lead := LeadBullets(highSteps, distinctLinked, coverage);
    var tail := TailBullets(signals, completionRate);
    var b := lead + [TonsReduced(tonsReduced)] + tail;
    assert forall x :: x in b <==> x in lead || x == TonsReduced(tonsReduced) || x in tail;
  }

  /** The rationale of a projection: which bullets appear, in push order, with the
      reduction of `pct` percent of `monthlyTons` rounded to 0.1 t. */
  function Rationale(steps: seq<InterventionStep>, signals: Signals, completionRate: real,
                     monthlyTons: real, pct: int): (b: seq<Bullet>)
    ensures InPushOrder(b)
    ensures (exists x :: x in b && x.HighImpactActions?) <==> CountImpact(steps, High) > 0
    ensures PolicyGapsAddressed(|LinkedIds(steps)|) in b <==> |LinkedIds(steps)| >= 4
    ensures exists x :: x in b && x.TonsReduced?
    ensures forall x :: x in b && x.TonsReduced? ==> x.tonsPerMonth == ToFixed(monthlyTons * pct as real / 100.0, 1)
    ensures FootTraffic in b <==> signals.footTrafficIndex > 0.7
    ensures RiverProximity in b <==> signals.riverProximityIndex > 0.5
    ensures (exists x :: x in b && x.AssumedCompletion?) <==> completionRate < 1.0
  {
    var highSteps := CountImpact(steps, High);
    var coverage := PolicyCoverage(steps);
    var tons := ToFixed(monthlyTons * pct as real / 100.0, 1);
    var bullets := Bullets(highSteps, |LinkedIds(steps)|, coverage, tons, signals, completionRate);
    assert TonsReduced(tons) in bullets;
    LeadBulletsAppear(highSteps, |LinkedIds(steps)|, coverage, tons, signals, completionRate);
    TailBulletsAppear(highSteps, |LinkedIds(steps)|, coverage, tons, signals, completionRate);
    CoverageAboveThird(steps);
    bullets
  }

  /** `computeProjectedImpact(beach, plan, completionRate)` */
  function ComputeProjectedImpact(beach: Beach, steps: seq<InterventionStep>, completionRate: real)
    : (p: ProjectedImpact)
    ensures 8 <= p.trashReductionPct30d <= 35
    ensures 5 <= p.scoreImprovement30d <= 25
    ensures p.trashReductionPct30d == TrashReductionPct(StepImpactScore(steps, completionRate),
      PolicyCoverage(steps), beach.pollutionScore / 100.0, completionRate)
    ensures p.scoreImprovement30d == ScoreImprovement(StepImpactScore(steps, completionRate),
      PolicyCoverage(steps), beach.pollutionScore / 100.0, completionRate)
    ensures p.confidence == ConfidenceFor(ConfidenceScore(|beach.history|,
      StepImpactScore(steps, completionRate), PolicyCoverage(steps)))
    ensures p.rationaleBullets == Rationale(steps, beach.signals, completionRate,
      beach.estimatedTrashTonsMonthly, p.trashReductionPct30d)
    ensures 1 <= |p.rationaleBullets|
    ensures (exists x :: x in p.rationaleBullets && x.AssumedCompletion?) <==> completionRate < 1.0
    ensures (exists x :: x in p.rationaleBullets && x.HighImpactActions?) <==> CountImpact(steps, High) > 0
    ensures PolicyGapsAddressed(|LinkedIds(steps)|) in p.rationaleBullets <==> |LinkedIds(steps)| >= 4
  {
    var pct := TrashReductionPct(StepImpactScore(steps, completionRate), PolicyCoverage(steps),
      beach.pollutionScore / 100.0, completionRate);
    var improvement := ScoreImprovement(StepImpactScore(steps, completionRate), PolicyCoverage(steps),
      beach.pollutionScore / 100.0, completionRate);
    var confidence := ConfidenceFor(ConfidenceScore(|beach.history|, StepImpactScore(steps, completionRate),
      PolicyCoverage(steps)));
    var bullets := Rationale(steps, beach.signals, completionRate, beach.estimatedTrashTonsMonthly, pct);
    ProjectedImpact(pct, improvement, confidence, bullets)
  }

  /** For a completion rate in [0, 1] the step impact and the coverage are fractions. */
  lemma ScoresAreFractions(steps: seq<InterventionStep>, completionRate: real)
    requires 0.0 <= completionRate <= 1.0
    ensures 0.0 <= StepImpactScore(steps, completionRate) <= 1.0
    ensures 0.0 <= PolicyCoverage(steps) <= 1.0
  {
  }
}
