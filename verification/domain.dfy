/** The beach-support domain of src/types/domain.ts: beaches, their compliance with a
    policy set, and the intervention plans drawn up for them. Only the fields the
    calculators read or write are kept; display-only fields (mascot, district,
    evidence type, descriptions) are left out. */
module Domain {
  import opened Geodesy

  datatype BeachType = Urban | Tourist | Remote | HarborBeach | RiverMouth

  datatype SupportStatus = NeedsAssistance | MakingProgress | Steady

  datatype TaskStatus = Todo | InProgress | Done

  /** `'low' | 'medium' | 'high'`: the expected impact of a step, the severity of a
      missing policy item and the confidence of a projection. */
  datatype Level = Low | Medium | High

  datatype OwnerRole = CityOps | Parks | Volunteers | Vendors | Sanitation

  datatype StepCategory = InfrastructureStep | CommunityStep | PolicyStep | MonitoringStep

  datatype PolicyCategory =
    | WasteInfrastructure | VendorCompliance | CommunityPrograms | Enforcement | Monitoring

  /** The category's display name, as the notes print it. */
  function CategoryName(c: PolicyCategory): (s: string)
    ensures |s| > 0
  {
    match c
    case WasteInfrastructure => "Waste Infrastructure"
    case VendorCompliance => "Vendor Compliance"
    case CommunityPrograms => "Community Programs"
    case Enforcement => "Enforcement"
    case Monitoring => "Monitoring"
  }

  datatype HistoryEntry = HistoryEntry(dateISO: string, pollutionScore: real, trashTons: real)

  datatype Signals = Signals(
    footTrafficIndex: real,
    proximityToVendorsIndex: real,
    riverProximityIndex: real)

  datatype PolicyItem = PolicyItem(
    id: string,
    title: string,
    category: PolicyCategory,
    severityIfMissing: Level)

  datatype PolicySet = PolicySet(
    id: string,
    name: string,
    jurisdiction: string,
    referenceUrl: string,
    items: seq<PolicyItem>)

  /** Compliance scores in [0, 1] by policy item id; an item without a score counts as 0. */
  datatype Compliance = Compliance(itemScores: map<string, real>, lastAuditISO: string)

  /** `compliance.itemScores[id] ?? 0` */
  function ScoreOf(compliance: Compliance, id: string): (s: real)
    ensures id in compliance.itemScores ==> s == compliance.itemScores[id]
    ensures id !in compliance.itemScores ==> s == 0.0
  {
    if id in compliance.itemScores then compliance.itemScores[id] else 0.0
  }

  /** One line of the rationale of a projection; the rendered sentence is left out,
      the numbers it shows are kept. */
  datatype Bullet =
    | HighImpactActions(count: nat)
    | PolicyGapsAddressed(count: nat)
    | TonsReduced(tonsPerMonth: real)
    | FootTraffic
    | RiverProximity
    | AssumedCompletion(percent: int)

  datatype ProjectedImpact = ProjectedImpact(
    trashReductionPct30d: int,
    scoreImprovement30d: int,
    confidence: Level,
    rationaleBullets: seq<Bullet>)

  datatype PolicyGapMatchup = PolicyGapMatchup(
    missingPolicyItemIds: seq<string>,
    highestPriorityItemIds: seq<string>,
    notes: seq<string>)

  /** A citation; the source calls its text `label`, a keyword here. */
  datatype Citation = Citation(caption: string, url: string)

  datatype InterventionStep = InterventionStep(
    id: string,
    category: StepCategory,
    title: string,
    ownerRole: OwnerRole,
    status: TaskStatus,
    expectedImpact: Level,
    linkedPolicyItemIds: seq<string>)

  datatype InterventionPlan = InterventionPlan(
    id: string,
    createdAtISO: string,
    summary: string,
    projectedImpact: ProjectedImpact,
    policyGapMatchup: PolicyGapMatchup,
    steps: seq<InterventionStep>,
    citations: seq<Citation>)

  datatype Beach = Beach(
    id: string,
    name: string,
    location: LatLng,
    beachType: BeachType,
    supportStatus: SupportStatus,
    pollutionScore: real,
    estimatedTrashTonsMonthly: real,
    lastUpdatedISO: string,
    history: seq<HistoryEntry>,
    signals: Signals,
    compliance: Compliance,
    interventions: seq<InterventionPlan>)

  /** The support status a pollution score earns: 60 and above needs assistance,
      35 and above is making progress, below 35 is steady. */
  function StatusFor(score: real): (s: SupportStatus)
    ensures s == NeedsAssistance <==> score >= 60.0
    ensures s == MakingProgress <==> 35.0 <= score < 60.0
    ensures s == Steady <==> score < 35.0
  {
    if score >= 60.0 then NeedsAssistance
    else if score >= 35.0 then MakingProgress
    else Steady
  }
}
