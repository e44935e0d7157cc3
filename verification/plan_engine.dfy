/** The plan engine of src/utils/planEngine.ts: a support plan for a beach (steps drawn
    from fixed templates, ordered by the policy gaps they address, with the projected
    impact and citations), and the simulated reassessment of a beach after a plan.
    The clock and the random draw of the source are parameters. */
module PlanEngine {
  import opened Numeric
  import opened Options
  import opened Domain
  import opened Filtering
  import opened StableSort
  import opened PolicyGapEngine
  import opened ImpactModel

  // ---------------------------------------------------------------------------
  // Step templates

  /** A kind of step a plan can contain, with the policy categories it addresses. */
  datatype StepTemplate = StepTemplate(
    title: string,
    category: StepCategory,
    owner: OwnerRole,
    impact: Level,
    policyCategories: seq<PolicyCategory>)

  /** How many templates there are. */
  const TemplateCount: nat := 15

  /** The template at position `i` of the template list. */
  function TemplateAt(i: nat): StepTemplate
    requires i < TemplateCount
  {
    match i
    case 0 => StepTemplate("Install waste bins at all beach entry points", InfrastructureStep, CityOps, High, [WasteInfrastructure])
    case 1 => StepTemplate("Deploy barrier nets at storm drain outlets", InfrastructureStep, Sanitation, High, [WasteInfrastructure])
    case 2 => StepTemplate("Set up recycling sorting stations", InfrastructureStep, CityOps, High, [WasteInfrastructure])
    case 3 => StepTemplate("Enforce vendor packaging compliance", PolicyStep, Vendors, Medium, [VendorCompliance])
    case 4 => StepTemplate("Distribute reusable bags to beachfront vendors", CommunityStep, Vendors, Low, [VendorCompliance])
    case 5 => StepTemplate("Organize bi-weekly community cleanup events", CommunityStep, Volunteers, Medium, [CommunityPrograms])
    case 6 => StepTemplate("Launch beach stewardship education workshops", CommunityStep, Parks, Medium, [CommunityPrograms])
    case 7 => StepTemplate("Propose single-use plastic restrictions near coast", PolicyStep, CityOps, High, [Enforcement])
    case 8 => StepTemplate("Schedule weekly enforcement patrols", PolicyStep, CityOps, Medium, [Enforcement])
    case 9 => StepTemplate("Install water quality monitoring sensors", MonitoringStep, Sanitation, Medium, [Monitoring])
    case 10 => StepTemplate("Schedule weekly tide line debris audits", MonitoringStep, Parks, Low, [Monitoring])
    case 11 => StepTemplate("Document and map pollution hotspots", MonitoringStep, Volunteers, Low, [Monitoring])
    case 12 => StepTemplate("Petition for increased coastal maintenance budget", PolicyStep, CityOps, Medium, [WasteInfrastructure, Enforcement])
    case 13 => StepTemplate("Deploy floating debris booms in harbor areas", InfrastructureStep, Sanitation, High, [WasteInfrastructure])
    case _ => StepTemplate("Establish beach ambassador volunteer program", CommunityStep, Volunteers, Low, [CommunityPrograms])
  }

  /** The template list, in the source's order. */
  function Templates(): (ts: seq<StepTemplate>)
    ensures |ts| == TemplateCount
    ensures forall i :: 0 <= i < TemplateCount ==> ts[i] == TemplateAt(i)
  {
    seq(TemplateCount, i requires 0 <= i < TemplateCount => TemplateAt(i))
  }

  /** The template addresses the item's category. */
  function Addresses(t: StepTemplate): (f: PolicyItem -> bool)
    ensures forall item :: f(item) <==> item.category in t.policyCategories
  {
    (item: PolicyItem) => item.category in t.policyCategories
  }

  /** `findLinkedPolicyItems(template, policySet)`: the ids of the policy items in the
      template's categories, in policy order. */
  function FindLinkedPolicyItems(t: StepTemplate, policySet: PolicySet): (ids: seq<string>)
    ensures var ps := Positions(policySet.items, Addresses(t));
      && |ids| == |ps|
      && forall k :: 0 <= k < |ps| ==> ids[k] == policySet.items[ps[k]].id
  {
    var ps := Positions(policySet.items, Addresses(t));
    seq(|ps|, k requires 0 <= k < |ps| => policySet.items[ps[k]].id)
  }

  /** An id is linked exactly when some item with that id is in one of the template's
      categories. */
  lemma LinkedItemsExact(t: StepTemplate, policySet: PolicySet, id: string)
    ensures id in FindLinkedPolicyItems(t, policySet) <==>
      exists i :: 0 <= i < |policySet.items| && policySet.items[i].id == id
        && policySet.items[i].category in t.policyCategories
  {
    var items := policySet.items;
    var ps := Positions(items, Addresses(t));
    var ids := FindLinkedPolicyItems(t, policySet);
    if id in ids {
      var k :| 0 <= k < |ids| && ids[k] == id;
      var i := ps[k];
      assert Addresses(t)(items[i]);
      assert 0 <= i < |items| && items[i].id == id && items[i].category in t.policyCategories;
    }
    forall i | 0 <= i < |items| && items[i].id == id && items[i].category in t.policyCategories
      ensures id in ids
    {
      assert Addresses(t)(items[i]);
      var k :| 0 <= k < |ps| && ps[k] == i;
      assert ids[k] == id;
    }
  }

  // ---------------------------------------------------------------------------
  // Plan generation

  /** The number of steps: 8 for a score of 60 and above, 6 from 35, 4 below. */
  function StepCount(pollutionScore: real): (n: nat)
    ensures n == 8 <==> pollutionScore >= 60.0
    ensures n == 6 <==> 35.0 <= pollutionScore < 60.0
    ensures n == 4 <==> pollutionScore < 35.0
    ensures n <= TemplateCount
  {
    if pollutionScore >= 60.0 then 8 else if pollutionScore >= 35.0 then 6 else 4
  }

  /** `policySet.items.find(pi => pi.id === id)` */
  function FindItem(policySet: PolicySet, id: string): (r: Option<PolicyItem>)
    ensures r.None? <==> forall i :: 0 <= i < |policySet.items| ==> policySet.items[i].id != id
    ensures r.Some? ==> r.value.id == id && r.value in policySet.items
  {
    var r := Find(policySet.items, (pi: PolicyItem) => pi.id == id);
    if r.Some? then
      var k :| 0 <= k < |policySet.items| && policySet.items[k] == r.value && r.value.id == id;
      r
    else r
  }

  /** The category of the item an id names, when some item has it. */
  predicate NamesCategory(policySet: PolicySet, id: string, c: PolicyCategory)
  {
    FindItem(policySet, id).Some? && FindItem(policySet, id).value.category == c
  }

  /** The categories of the highest-priority missing items (ids naming no item drop out). */
  function MissingCategories(policySet: PolicySet, highest: seq<string>): (cs: set<PolicyCategory>)
    ensures forall c :: c in cs <==> exists k :: 0 <= k < |highest| && NamesCategory(policySet, highest[k], c)
  {
    set k | 0 <= k < |highest| && FindItem(policySet, highest[k]).Some? :: FindItem(policySet, highest[k]).value.category
  }

  /** The template addresses one of the missing categories. */
  predicate Matches(t: StepTemplate, missing: set<PolicyCategory>)
  {
    exists c :: c in t.policyCategories && c in missing
  }

  /** The sort key that reproduces the comparator: a match outweighs any impact. */
  function TemplateKey(t: StepTemplate, missing: set<PolicyCategory>): (key: real)
    ensures Matches(t, missing) ==> 10.0 < key <= 13.0
    ensures !Matches(t, missing) ==> 0.0 < key <= 3.0
  {
    (if Matches(t, missing) then 10.0 else 0.0) + LevelRank(t.impact) as real
  }

  function TemplateKeys(ts: seq<StepTemplate>, missing: set<PolicyCategory>): (keys: seq<real>)
    ensures |keys| == |ts|
    ensures forall k :: 0 <= k < |ts| ==> keys[k] == TemplateKey(ts[k], missing)
  {
    seq(|ts|, k requires 0 <= k < |ts| => TemplateKey(ts[k], missing))
  }

  /** Sorting templates as the comparator orders them: those addressing a missing
      category first, then by impact, high before medium before low, ties in input
      order. */
  function SortTemplates(ts: seq<StepTemplate>, missing: set<PolicyCategory>): (r: seq<StepTemplate>)
    ensures |r| == |ts|
    ensures multiset(r) == multiset(ts)
    ensures forall a, b :: 0 <= a < b < |r| && Matches(r[b], missing) ==> Matches(r[a], missing)
    ensures forall a, b :: 0 <= a < b < |r| && Matches(r[a], missing) == Matches(r[b], missing) ==>
      LevelRank(r[a].impact) >= LevelRank(r[b].impact)
  {
    var keys := TemplateKeys(ts, missing);
    var r := SortDesc(ts, keys);
    SortDescIsPermutation(ts, keys);
    assert forall a, b :: 0 <= a < b < |r| ==> TemplateKey(r[a], missing) >= TemplateKey(r[b], missing);
    r
  }

  /** The template list, sorted for the missing categories. */
  function SortedTemplates(missing: set<PolicyCategory>): (r: seq<StepTemplate>)
    ensures |r| == TemplateCount
  {
    SortTemplates(Templates(), missing)
  }

  /** Templates of equal rank keep their order in the template list. */
  lemma SortTemplatesStable(ts: seq<StepTemplate>, missing: set<PolicyCategory>, a: nat, b: nat)
    requires a < b < |ts|
    requires var keys := TemplateKeys(ts, missing);
      keys[Order(keys)[a]] == keys[Order(keys)[b]]
    ensures var keys := TemplateKeys(ts, missing);
      && SortTemplates(ts, missing)[a] == ts[Order(keys)[a]]
      && SortTemplates(ts, missing)[b] == ts[Order(keys)[b]]
      && Order(keys)[a] < Order(keys)[b]
  {
    var keys := TemplateKeys(ts, missing);
    assert SortTemplates(ts, missing) == SortDesc(ts, keys);
    SortDescIsStable(ts, keys, a, b);
  }

  /** The i-th step of a plan made at `now` for the beach. */
  function MakeStep(t: StepTemplate, policySet: PolicySet, beachId: string, now: nat, i: nat): (s: InterventionStep)
    ensures s.status == Todo
    ensures s.category == t.category && s.title == t.title && s.ownerRole == t.owner
    ensures s.expectedImpact == t.impact
    ensures s.linkedPolicyItemIds == FindLinkedPolicyItems(t, policySet)
    ensures s.id == StepIdPrefix(beachId, now) + NatToString(i)
  {
    InterventionStep(StepIdPrefix(beachId, now) + NatToString(i), t.category, t.title, t.owner, Todo,
      t.impact, FindLinkedPolicyItems(t, policySet))
  }

  function StepIdPrefix(beachId: string, now: nat): string
  {
    "step-" + beachId + "-" + NatToString(now) + "-"
  }

  /** The steps of one plan never share an id. */
  lemma StepIdsDistinct(beachId: string, now: nat, i: nat, j: nat)
    requires i != j
    ensures StepIdPrefix(beachId, now) + NatToString(i) != StepIdPrefix(beachId, now) + NatToString(j)
  {
    var p := StepIdPrefix(beachId, now);
    if p + NatToString(i) == p + NatToString(j) {
      assert (p + NatToString(i))[|p|..] == NatToString(i);
      assert (p + NatToString(j))[|p|..] == NatToString(j);
      NatToStringInjective(i, j);
    }
  }

  /** The first `count` sorted templates, made into steps. */
  function PlanSteps(sorted: seq<StepTemplate>, count: nat, policySet: PolicySet, beachId: string, now: nat)
    : (steps: seq<InterventionStep>)
    requires count <= |sorted|
    ensures |steps| == count
    ensures forall k :: 0 <= k < count ==> steps[k] == MakeStep(sorted[k], policySet, beachId, now, k)
  {
    seq(count, k requires 0 <= k < count => MakeStep(sorted[k], policySet, beachId, now, k))
  }

  /** The citation of one policy item: the policy set's name and the item's title (or
      the id when no item has it), linking to the item's anchor. */
  function MakeCitation(policySet: PolicySet, id: string): (c: Citation)
    ensures c.url == policySet.referenceUrl + "#" + id
    ensures FindItem(policySet, id).Some? ==> c.caption == policySet.name + " — " + FindItem(policySet, id).value.title
    ensures FindItem(policySet, id).None? ==> c.caption == policySet.name + " — " + id
  {
    var item := FindItem(policySet, id);
    Citation(policySet.name + " — " + (if item.Some? then item.value.title else id), policySet.referenceUrl + "#" + id)
  }

  /** At most three citations, one per highest-priority id, in order. */
  function Citations(policySet: PolicySet, highest: seq<string>): (cs: seq<Citation>)
    ensures |cs| == if |highest| < 3 then |highest| else 3
    ensures forall k :: 0 <= k < |cs| ==> cs[k] == MakeCitation(policySet, highest[k])
  {
    var ids := Take(highest, 3);
    seq(|ids|, k requires 0 <= k < |ids| => MakeCitation(policySet, ids[k]))
  }

  /** The summary line for the beach's support status. */
  function Summary(status: SupportStatus, count: nat, jurisdiction: string, impact: ProjectedImpact): string
    requires impact.trashReductionPct30d >= 0 && impact.scoreImprovement30d >= 0
  {
    match status
    case NeedsAssistance =>
      "This beach needs focused support. Here are " + NatToString(count)
      + " recommended next steps aligned to " + jurisdiction + ". Projected: "
      + NatToString(impact.trashReductionPct30d) + "% trash reduction in 30 days."
    case MakingProgress =>
      "Good progress! These " + NatToString(count)
      + " steps target remaining policy gaps and will help maintain momentum. Projected: "
      + NatToString(impact.scoreImprovement30d) + "-point score improvement."
    case Steady =>
      "This beach is doing well. These " + NatToString(count)
      + " maintenance steps keep compliance strong and conditions steady."
  }

  /** The steps of the plan: the first `StepCount` templates in ranked order, each made
      into a step with a fresh id. */
  function SupportSteps(beach: Beach, policySet: PolicySet, highest: seq<string>, now: nat)
    : (steps: seq<InterventionStep>)
    ensures |steps| == StepCount(beach.pollutionScore)
    ensures var sorted := SortedTemplates(MissingCategories(policySet, highest));
      forall k :: 0 <= k < |steps| ==> steps[k] == MakeStep(sorted[k], policySet, beach.id, now, k)
    ensures forall k :: 0 <= k < |steps| ==> steps[k].status == Todo
  {
    var sorted := SortedTemplates(MissingCategories(policySet, highest));
    PlanSteps(sorted, StepCount(beach.pollutionScore), policySet, beach.id, now)
  }

  /** `generateSupportPlan(beach, policySet)`, made at `now` milliseconds, `nowISO`. */
  function GenerateSupportPlan(beach: Beach, policySet: PolicySet, now: nat, nowISO: string)
    : (plan: InterventionPlan)
    ensures plan.policyGapMatchup == ComputePolicyGaps(beach.compliance, policySet, beach.signals, beach.beachType)
    ensures plan.steps == SupportSteps(beach, policySet, plan.policyGapMatchup.highestPriorityItemIds, now)
    ensures plan.projectedImpact == ComputeProjectedImpact(beach, plan.steps, 1.0)
    ensures |plan.citations| == if |plan.policyGapMatchup.highestPriorityItemIds| < 3
      then |plan.policyGapMatchup.highestPriorityItemIds| else 3
    ensures plan.citations == Citations(policySet, plan.policyGapMatchup.highestPriorityItemIds)
    ensures plan.id == "plan-" + beach.id + "-" + NatToString(now)
    ensures plan.createdAtISO == nowISO
  {
    var count := StepCount(beach.pollutionScore);
    var gaps := ComputePolicyGaps(beach.compliance, policySet, beach.signals, beach.beachType);
    var steps := SupportSteps(beach, policySet, gaps.highestPriorityItemIds, now);
    var impact := ComputeProjectedImpact(beach, steps, 1.0);
    InterventionPlan(
      "plan-" + beach.id + "-" + NatToString(now),
      nowISO,
      Summary(beach.supportStatus, count, policySet.jurisdiction, impact),
      impact,
      gaps,
      steps,
      Citations(policySet, gaps.highestPriorityItemIds))
  }

  // ---------------------------------------------------------------------------
  // Reassessment

  /** The steps of a plan with the given status. */
  function WithStatus(s: TaskStatus): (f: InterventionStep -> bool)
    ensures forall step :: f(step) <==> step.status == s
  {
    (step: InterventionStep) => step.status == s
  }

  function CountStatus(steps: seq<InterventionStep>, s: TaskStatus): (n: nat)
    ensures n <= |steps|
  {
    |Filter(steps, WithStatus(s))|
  }

  /** Every step is in exactly one status. */
  lemma StatusCountsSum(steps: seq<InterventionStep>)
    ensures CountStatus(steps, Done) + CountStatus(steps, InProgress) + CountStatus(steps, Todo) == |steps|
  {
    PartitionSizes(steps, WithStatus(Done), WithStatus(InProgress), WithStatus(Todo));
  }

  /** No step has the status exactly when none is counted. */
  lemma CountStatusZero(steps: seq<InterventionStep>, s: TaskStatus)
    ensures CountStatus(steps, s) == 0 <==> forall k :: 0 <= k < |steps| ==> steps[k].status != s
  {
    FilterMembers(steps, WithStatus(s));
    if CountStatus(steps, s) == 0 {
      forall k | 0 <= k < |steps| ensures steps[k].status != s {
        assert steps[k] in steps;
      }
    } else {
      var x := Filter(steps, WithStatus(s))[0];
      assert x in Filter(steps, WithStatus(s));
    }
  }

  /** The plan a reassessment looks at: the latest one, if any. */
  function LatestPlan(beach: Beach): (r: Option<InterventionPlan>)
    ensures r.None? <==> |beach.interventions| == 0
    ensures r.Some? ==> r.value == beach.interventions[|beach.interventions| - 1]
  {
    if |beach.interventions| == 0 then None else Some(beach.interventions[|beach.interventions| - 1])
  }

  /** The done share of `n` steps, a step in progress counting 0.3. */
  function Share(done: nat, inProgress: nat, n: nat): (r: real)
    requires n > 0 && done + inProgress <= n
    ensures 0.0 <= r <= 1.0
    ensures r * n as real == done as real + inProgress as real * 0.3
    ensures r == 1.0 <==> done == n
    ensures r == 0.0 <==> done == 0 && inProgress == 0
  {
    var worked := done as real + inProgress as real * 0.3;
    DivMul(worked, n as real);
    DivLe(worked, n as real, n as real);
    DivNonNegative(worked, n as real);
    ShareExtremes(worked / n as real, worked, n as real);
    worked / n as real
  }

  lemma ShareExtremes(r: real, worked: real, n: real)
    requires n > 0.0 && r * n == worked
    ensures r == 1.0 <==> worked == n
    ensures r == 0.0 <==> worked == 0.0
  {
    if worked == n && r != 1.0 {
      if r < 1.0 { MulLt(r, 1.0, n); } else { MulLt(1.0, r, n); }
    }
    if worked == 0.0 && r != 0.0 {
      if r < 0.0 { MulLt(r, 0.0, n); } else { MulLt(0.0, r, n); }
    }
  }

  /** The share of the latest plan that is done, a step in progress counting 0.3; 0
      without a plan. `None` stands for the `NaN` of a plan with no steps. */
  function CompletionRate(beach: Beach): (r: Option<real>)
    ensures r.None? <==> LatestPlan(beach).Some? && |LatestPlan(beach).value.steps| == 0
    ensures LatestPlan(beach).None? ==> r == Some(0.0)
    ensures r.Some? ==> 0.0 <= r.value <= 1.0
  {
    match LatestPlan(beach)
    case None => Some(0.0)
    case Some(plan) => StepsRate(plan.steps)
  }

  /** The weighted share of progress of one plan's steps, undefined for a plan without
      steps (where the source divides 0 by 0). */
  function StepsRate(steps: seq<InterventionStep>): (r: Option<real>)
    ensures r.None? <==> |steps| == 0
    ensures r.Some? ==> 0.0 <= r.value <= 1.0
  {
    if |steps| == 0 then None
    else
      StatusCountsSum(steps);
      Some(Share(CountStatus(steps, Done), CountStatus(steps, InProgress), |steps|))
  }

  /** The rate is the done steps plus 0.3 per step in progress, over the step count. */
  lemma StepsRateWeighted(steps: seq<InterventionStep>)
    requires |steps| > 0
    ensures StepsRate(steps).Some?
    ensures StepsRate(steps).value
      == (CountStatus(steps, Done) as real + CountStatus(steps, InProgress) as real * 0.3) / |steps| as real
  {
    StatusCountsSum(steps);
    var r := Share(CountStatus(steps, Done), CountStatus(steps, InProgress), |steps|);
    assert StepsRate(steps) == Some(r);
    ShareIsQuotient(CountStatus(steps, Done), CountStatus(steps, InProgress), |steps|);
  }

  /** The share is the weighted progress over the step count. */
  lemma ShareIsQuotient(done: nat, inProgress: nat, n: nat)
    requires n > 0 && done + inProgress <= n
    ensures Share(done, inProgress, n) == (done as real + inProgress as real * 0.3) / n as real
  {
  }

  /** For a latest plan with steps, the rate weighs done steps fully and steps in
      progress at 0.3, over the step count. */
  lemma CompletionRateWeighted(beach: Beach)
    requires LatestPlan(beach).Some? && |LatestPlan(beach).value.steps| > 0
    ensures var steps := LatestPlan(beach).value.steps;
      && CompletionRate(beach).Some?
      && CompletionRate(beach).value
        == (CountStatus(steps, Done) as real + CountStatus(steps, InProgress) as real * 0.3) / |steps| as real
  {
    StepsRateWeighted(LatestPlan(beach).value.steps);
  }

  /** The rate is 1 exactly when the latest plan has steps and all are done. */
  lemma CompletionRateFull(beach: Beach)
    ensures CompletionRate(beach) == Some(1.0) <==>
      && LatestPlan(beach).Some?
      && |LatestPlan(beach).value.steps| > 0
      && forall k :: 0 <= k < |LatestPlan(beach).value.steps| ==> LatestPlan(beach).value.steps[k].status == Done
  {
    if LatestPlan(beach).Some? {
      var steps := LatestPlan(beach).value.steps;
      if |steps| > 0 {
        AllDone(steps);
        assert CompletionRate(beach) == Some(Share(CountStatus(steps, Done), CountStatus(steps, InProgress), |steps|));
      }
    }
  }

  /** Every step is done exactly when the done count is the step count. */
  lemma AllDone(steps: seq<InterventionStep>)
    ensures CountStatus(steps, Done) + CountStatus(steps, InProgress) <= |steps|
    ensures CountStatus(steps, Done) == |steps| <==> forall k :: 0 <= k < |steps| ==> steps[k].status == Done
  {
    StatusCountsSum(steps);
    CountStatusZero(steps, InProgress);
    CountStatusZero(steps, Todo);
  }

  /** No step is started exactly when the done and in-progress counts are both 0. */
  lemma NoneStarted(steps: seq<InterventionStep>)
    ensures CountStatus(steps, Done) + CountStatus(steps, InProgress) <= |steps|
    ensures CountStatus(steps, Done) == 0 && CountStatus(steps, InProgress) == 0
      <==> forall k :: 0 <= k < |steps| ==> steps[k].status == Todo
  {
    StatusCountsSum(steps);
    CountStatusZero(steps, Done);
    CountStatusZero(steps, InProgress);
    if forall k :: 0 <= k < |steps| ==> steps[k].status == Todo {
      assert forall k :: 0 <= k < |steps| ==> steps[k].status != Done && steps[k].status != InProgress;
    } else {
      var k :| 0 <= k < |steps| && steps[k].status != Todo;
      assert steps[k].status == Done || steps[k].status == InProgress;
    }
  }

  /** The rate is 0 exactly when there is no plan, or no step of it is done or in
      progress. */
  lemma CompletionRateZero(beach: Beach)
    ensures CompletionRate(beach) == Some(0.0) <==>
      || LatestPlan(beach).None?
      || (&& |LatestPlan(beach).value.steps| > 0
          && forall k :: 0 <= k < |LatestPlan(beach).value.steps| ==> LatestPlan(beach).value.steps[k].status == Todo)
  {
    if LatestPlan(beach).Some? {
      var steps := LatestPlan(beach).value.steps;
      if |steps| > 0 {
        NoneStarted(steps);
        assert CompletionRate(beach) == Some(Share(CountStatus(steps, Done), CountStatus(steps, InProgress), |steps|));
      }
    }
  }

  /** The change of the pollution score: a drop when most of the plan is done, a
      smaller drop when some of it is, otherwise a random rise (larger for a beach
      needing assistance). `draw` is `Math.random()`. */
  function ScoreDelta(rate: Option<real>, status: SupportStatus, draw: real): (delta: int)
    ensures rate.Some? && 0.7 <= rate.value <= 1.0 ==> -20 <= delta <= -16
    ensures rate.Some? && 0.3 <= rate.value < 0.7 ==> -6 <= delta <= -4
    ensures (rate.None? || rate.value < 0.3) && 0.0 <= draw < 1.0 ==>
      if status == NeedsAssistance then 3 <= delta <= 6 else -1 <= delta <= 2
  {
    if rate.Some? && rate.value >= 0.7 then -(8 + Round(rate.value * 12.0))
    else if rate.Some? && rate.value >= 0.3 then -(2 + Round(rate.value * 6.0))
    else if status == NeedsAssistance then 3 + Round(draw * 3.0)
    else Round(draw * 3.0) - 1
  }

  /** The new score, clamped to 0 .. 100. */
  function NewScore(score: real, delta: int): (s: real)
    ensures 0.0 <= s <= 100.0
    ensures 0.0 <= score + delta as real <= 100.0 ==> s == score + delta as real
  {
    Max(0.0, Min(100.0, score + delta as real))
  }

  /** The monthly tons the new score implies: 0.8 plus 0.07 per point, to one decimal. */
  function NewTrash(score: real): (t: real)
    ensures OnGrid(t, 1)
    ensures Abs(t - (0.8 + score * 0.07)) <= HalfUlp(1)
    ensures t == ToFixed(0.8 + (score / 100.0) * 7.0, 1)
  {
    ToFixed(0.8 + (score / 100.0) * 7.0, 1)
  }

  /** Scores 0 and 100 give 0.8 and 7.8 tons; score 45, exactly half-way at 3.95, gives 4.0. */
  lemma NewTrashExamples()
    ensures NewTrash(0.0) == 0.8 && NewTrash(100.0) == 7.8
    ensures NewTrash(45.0) == 4.0
  {
    ToFixedTenths(0.8, 8);
    ToFixedTenths(7.8, 78);
    ToFixedTenths(3.95, 40);
  }

  /** The number of times `id` occurs in `ids`. */
  function Occurrences(ids: seq<string>, id: string): nat
  {
    if |ids| == 0 then 0
    else Occurrences(ids[..|ids| - 1], id) + (if ids[|ids| - 1] == id then 1 else 0)
  }

  /** One bump of an item's score by 0.15, capped at 1. */
  function Bump(c: Compliance, id: string): (r: Compliance)
    ensures r.lastAuditISO == c.lastAuditISO
    ensures id in r.itemScores && r.itemScores[id] == Min(1.0, ScoreOf(c, id) + 0.15)
    ensures forall other :: other != id ==> (other in r.itemScores <==> other in c.itemScores)
    ensures forall other :: other != id && other in c.itemScores ==> r.itemScores[other] == c.itemScores[other]
  {
    c.(itemScores := c.itemScores[id := Min(1.0, ScoreOf(c, id) + 0.15)])
  }

  /** The bumps for `ids`, in order. */
  function BumpAll(c: Compliance, ids: seq<string>): (r: Compliance)
    ensures r.lastAuditISO == c.lastAuditISO
  {
    if |ids| == 0 then c else Bump(BumpAll(c, ids[..|ids| - 1]), ids[|ids| - 1])
  }

  /** An id bumped `k > 0` times ends at `min(1, old + 0.15 k)`; an id never bumped keeps
      its score, or its absence. */
  lemma {:induction false} BumpAllClosedForm(c: Compliance, ids: seq<string>, id: string)
    ensures Occurrences(ids, id) > 0 ==> (id in BumpAll(c, ids).itemScores
      && BumpAll(c, ids).itemScores[id] == Min(1.0, ScoreOf(c, id) + 0.15 * Occurrences(ids, id) as real))
    ensures Occurrences(ids, id) == 0 ==> (id in BumpAll(c, ids).itemScores <==> id in c.itemScores)
    ensures Occurrences(ids, id) == 0 && id in c.itemScores ==> BumpAll(c, ids).itemScores[id] == c.itemScores[id]
  {
    if |ids| > 0 {
      var front := ids[..|ids| - 1];
      BumpAllClosedForm(c, front, id);
      if ids[|ids| - 1] == id && Occurrences(front, id) > 0 {
        CapAgain(ScoreOf(c, id), Occurrences(front, id));
      }
    }
  }

  /** Capping twice is capping once. */
  lemma CapAgain(a: real, k: nat)
    ensures Min(1.0, Min(1.0, a + 0.15 * k as real) + 0.15) == Min(1.0, a + 0.15 * (k + 1) as real)
  {
  }

  /** The policy ids the done steps link to, step by step, in order. */
  function DoneLinks(steps: seq<InterventionStep>): (ids: seq<string>)
    ensures forall id :: id in ids <==> DoneStepLinks(steps, id)
  {
    if |steps| == 0 then []
    else
      var front := steps[..|steps| - 1];
      var last := steps[|steps| - 1];
      assert forall k :: 0 <= k < |front| ==> front[k] == steps[k];
      DoneLinks(front) + (if last.status == Done then last.linkedPolicyItemIds else [])
  }

  /** Some done step links to `id`. */
  predicate DoneStepLinks(steps: seq<InterventionStep>, id: string)
  {
    exists k :: 0 <= k < |steps| && steps[k].status == Done && id in steps[k].linkedPolicyItemIds
  }

  /** Whether the reassessment bumps compliance: a plan exists and its rate is positive. */
  predicate Bumps(beach: Beach)
  {
    var rate := CompletionRate(beach);
    LatestPlan(beach).Some? && rate.Some? && rate.value > 0.0
  }

  /** The compliance after the reassessment, audited `today` when it bumps. */
  function NewCompliance(beach: Beach, today: string): (c: Compliance)
    ensures !Bumps(beach) ==> c == beach.compliance
    ensures Bumps(beach) ==> c.lastAuditISO == today
  {
    if Bumps(beach) then
      BumpAll(beach.compliance, DoneLinks(LatestPlan(beach).value.steps)).(lastAuditISO := today)
    else beach.compliance
  }

  /** `simulateReassessment(beach)`, with `Math.random()` as `draw` and the date as
      `today`. */
  function SimulateReassessment(beach: Beach, draw: real, today: string): (r: Beach)
    ensures 0.0 <= r.pollutionScore <= 100.0
    ensures r.supportStatus == StatusFor(r.pollutionScore)
    ensures r.pollutionScore == NewScore(beach.pollutionScore, ScoreDelta(CompletionRate(beach), beach.supportStatus, draw))
    ensures OnGrid(r.estimatedTrashTonsMonthly, 1)
    ensures Abs(r.estimatedTrashTonsMonthly - (0.8 + r.pollutionScore * 0.07)) <= HalfUlp(1)
    ensures r.estimatedTrashTonsMonthly == NewTrash(r.pollutionScore)
    ensures r.history == beach.history + [HistoryEntry(today, r.pollutionScore, r.estimatedTrashTonsMonthly)]
    ensures r.lastUpdatedISO == today
    ensures r.compliance == NewCompliance(beach, today)
    ensures && r.id == beach.id && r.name == beach.name && r.location == beach.location
      && r.beachType == beach.beachType && r.signals == beach.signals
      && r.interventions == beach.interventions
    ensures var rate := CompletionRate(beach);
      rate.Some? && rate.value >= 0.7 && beach.pollutionScore <= 100.0 ==>
      r.pollutionScore <= Max(0.0, beach.pollutionScore - 16.0)
  {
    var rate := CompletionRate(beach);
    var delta := ScoreDelta(rate, beach.supportStatus, draw);
    var score := NewScore(beach.pollutionScore, delta);
    var trash := NewTrash(score);
    beach.(
      pollutionScore := score,
      estimatedTrashTonsMonthly := trash,
      supportStatus := StatusFor(score),
      lastUpdatedISO := today,
      history := beach.history + [HistoryEntry(today, score, trash)],
      compliance := NewCompliance(beach, today))
  }

  /** After a reassessment, an item some done step links to is bumped once per link
      (capped at 1); every other item keeps its score, or its absence. */
  lemma ReassessedCompliance(beach: Beach, draw: real, today: string, id: string)
    requires Bumps(beach)
    ensures var plan := LatestPlan(beach).value;
      var k := Occurrences(DoneLinks(plan.steps), id);
      var after := SimulateReassessment(beach, draw, today).compliance;
      && (k > 0 ==> (id in after.itemScores
           && after.itemScores[id] == Min(1.0, ScoreOf(beach.compliance, id) + 0.15 * k as real)))
      && (k == 0 ==> (id in after.itemScores <==> id in beach.compliance.itemScores))
      && (k == 0 && id in beach.compliance.itemScores ==> after.itemScores[id] == beach.compliance.itemScores[id])
  {
    BumpAllClosedForm(beach.compliance, DoneLinks(LatestPlan(beach).value.steps), id);
  }

  /** An id occurs among the done links exactly when a done step links to it. */
  lemma OccursWhenLinked(steps: seq<InterventionStep>, id: string)
    ensures Occurrences(DoneLinks(steps), id) > 0 <==> DoneStepLinks(steps, id)
  {
    OccurrencesCount(DoneLinks(steps), id);
  }

  lemma {:induction false} OccurrencesCount(ids: seq<string>, id: string)
    ensures Occurrences(ids, id) > 0 <==> id in ids
  {
    if |ids| > 0 {
      OccurrencesCount(ids[..|ids| - 1], id);
      assert ids == ids[..|ids| - 1] + [ids[|ids| - 1]];
    }
  }
}
