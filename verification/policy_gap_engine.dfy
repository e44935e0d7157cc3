/** The policy-gap engine of src/utils/policyGapEngine.ts: which policy items a beach
    falls short on, in which order to address them, and the supportive notes shown
    with them. */
module PolicyGapEngine {
  import opened Numeric
  import opened Domain
  import opened StableSort
  import opened Filtering

  /** An item scoring below this is missing. */
  const ComplianceThreshold: real := 0.6

  /** How many of the missing items are reported as highest priority. */
  const TopCount: nat := 5

  /** How many of the missing items the focus-areas note looks at. */
  const FocusCount: nat := 3

  /** The policy categories that matter most on each type of beach. */
  function TypePriorityBoost(t: BeachType): (cs: seq<PolicyCategory>)
    ensures |cs| == 2
  {
    match t
    case Urban => [WasteInfrastructure, Enforcement]
    case Tourist => [VendorCompliance, CommunityPrograms]
    case Remote => [Monitoring, CommunityPrograms]
    case HarborBeach => [WasteInfrastructure, Enforcement]
    case RiverMouth => [WasteInfrastructure, Monitoring]
  }

  function SeverityWeight(severity: Level): (w: real)
    ensures w == 30.0 <==> severity == High
    ensures w == 15.0 <==> severity == Medium
    ensures w == 5.0 <==> severity == Low
  {
    match severity
    case High => 30.0
    case Medium => 15.0
    case Low => 5.0
  }

  /** The extra weight the beach's signals give an item of category `c`: vendors
      nearby for vendor compliance, a river nearby for waste infrastructure, heavy
      foot traffic for community programmes. */
  function SignalBoost(c: PolicyCategory, signals: Signals): (b: real)
    ensures b == 0.0 || b == 8.0 || b == 10.0
    ensures b == 10.0 <==> ((c == VendorCompliance && signals.proximityToVendorsIndex > 0.6)
      || (c == WasteInfrastructure && signals.riverProximityIndex > 0.5))
    ensures b == 8.0 <==> c == CommunityPrograms && signals.footTrafficIndex > 0.7
  {
    (if c == VendorCompliance && signals.proximityToVendorsIndex > 0.6 then 10.0 else 0.0)
    + (if c == WasteInfrastructure && signals.riverProximityIndex > 0.5 then 10.0 else 0.0)
    + (if c == CommunityPrograms && signals.footTrafficIndex > 0.7 then 8.0 else 0.0)
  }

  /** The extra weight of a category that matters on this type of beach. */
  function TypeBoost(c: PolicyCategory, t: BeachType): (b: real)
    ensures b == 15.0 <==> c in TypePriorityBoost(t)
    ensures b == 0.0 <==> c !in TypePriorityBoost(t)
  {
    if c in TypePriorityBoost(t) then 15.0 else 0.0
  }

  /** `priorityScore(item, score, beachType, signals)`: 40 points for a wholly missing
      item scaled by its shortfall, plus the severity weight, the beach-type boost and
      the signal boost. Everything but the shortfall adds between 5 and 55. */
  function PriorityScore(item: PolicyItem, score: real, t: BeachType, signals: Signals): (p: real)
    ensures p == (1.0 - score) * 40.0 + SeverityWeight(item.severityIfMissing)
      + TypeBoost(item.category, t) + SignalBoost(item.category, signals)
    ensures 5.0 <= p - (1.0 - score) * 40.0 <= 55.0
    ensures item.severityIfMissing == High ==> p - (1.0 - score) * 40.0 >= 30.0
  {
    (1.0 - score) * 40.0
    + SeverityWeight(item.severityIfMissing)
    + TypeBoost(item.category, t)
    + SignalBoost(item.category, signals)
  }

  /** The same item, score and signals rank exactly 15 higher on a beach type whose
      priority categories include the item's category than on one whose do not. */
  lemma TypeBoostAddsFifteen(item: PolicyItem, score: real, boosted: BeachType, plain: BeachType, signals: Signals)
    requires item.category in TypePriorityBoost(boosted)
    requires item.category !in TypePriorityBoost(plain)
    ensures PriorityScore(item, score, boosted, signals) == PriorityScore(item, score, plain, signals) + 15.0
  {
  }

  /** For a fixed item, a lower compliance score gives a strictly higher priority. */
  lemma PriorityDecreasesWithScore(item: PolicyItem, lower: real, higher: real, t: BeachType, signals: Signals)
    requires lower < higher
    ensures PriorityScore(item, lower, t, signals) > PriorityScore(item, higher, t, signals)
  {
    MulLt(1.0 - higher, 1.0 - lower, 40.0);
  }

  /** For a fixed score, a more severe item gets a strictly higher priority. */
  lemma PriorityIncreasesWithSeverity(item: PolicyItem, score: real, t: BeachType, signals: Signals)
    ensures PriorityScore(item.(severityIfMissing := Low), score, t, signals)
      < PriorityScore(item.(severityIfMissing := Medium), score, t, signals)
      < PriorityScore(item.(severityIfMissing := High), score, t, signals)
  {
  }

  /** The test of the filter: the item's score, or 0 without one, is below the threshold. */
  function IsMissing(compliance: Compliance): (f: PolicyItem -> bool)
    ensures forall item :: f(item) <==> ScoreOf(compliance, item.id) < ComplianceThreshold
  {
    (item: PolicyItem) => ScoreOf(compliance, item.id) < ComplianceThreshold
  }

  /** The item at position `i` of the policy set is missing. */
  predicate MissingAt(compliance: Compliance, items: seq<PolicyItem>, i: int)
  {
    0 <= i < |items| && ScoreOf(compliance, items[i].id) < ComplianceThreshold
  }

  /** A missing item with its score, its priority and its position in the policy set. */
  datatype Gap = Gap(item: PolicyItem, score: real, priority: real, position: nat)

  /** The missing items in policy-set order. */
  function Gaps(compliance: Compliance, policySet: PolicySet, signals: Signals, t: BeachType): (gs: seq<Gap>)
    ensures var ps := Positions(policySet.items, IsMissing(compliance));
      && |gs| == |ps|
      && forall k :: 0 <= k < |gs| ==>
        && gs[k].position == ps[k]
        && gs[k].item == policySet.items[ps[k]]
        && gs[k].score == ScoreOf(compliance, gs[k].item.id)
        && gs[k].priority == PriorityScore(gs[k].item, gs[k].score, t, signals)
  {
    var items := policySet.items;
    var ps := Positions(items, IsMissing(compliance));
    seq(|ps|, k requires 0 <= k < |ps| =>
      var item := items[ps[k]];
      var score := ScoreOf(compliance, item.id);
      Gap(item, score, PriorityScore(item, score, t, signals), ps[k]))
  }

  function Priorities(gs: seq<Gap>): (keys: seq<real>)
    ensures |keys| == |gs|
    ensures forall k :: 0 <= k < |gs| ==> keys[k] == gs[k].priority
  {
    seq(|gs|, k requires 0 <= k < |gs| => gs[k].priority)
  }

  /** `missing.sort((a, b) => b.priority - a.priority)`: the missing items, highest
      priority first, items of equal priority in policy-set order. */
  function RankedGaps(compliance: Compliance, policySet: PolicySet, signals: Signals, t: BeachType)
    : (r: seq<Gap>)
    ensures multiset(r) == multiset(Gaps(compliance, policySet, signals, t))
    ensures forall a, b :: 0 <= a < b < |r| ==> r[a].priority >= r[b].priority
    ensures forall a, b :: 0 <= a < b < |r| && r[a].priority == r[b].priority ==>
      r[a].position < r[b].position
    ensures forall a, b :: 0 <= a < |r| && 0 <= b < |r| && a != b ==> r[a].position != r[b].position
    ensures forall k :: 0 <= k < |r| ==> Describes(r[k], compliance, policySet, signals, t)
    ensures forall i :: MissingAt(compliance, policySet.items, i) ==> exists k :: 0 <= k < |r| && r[k].position == i
  {
    var gs := Gaps(compliance, policySet, signals, t);
    var keys := Priorities(gs);
    SortDescIsPermutation(gs, keys);
    RankedFacts(gs, keys, compliance, policySet, signals, t);
    SortDesc(gs, keys)
  }

  /** `g` is the gap of the item at its position: a missing item, with its score and
      its priority. */
  predicate Describes(g: Gap, compliance: Compliance, policySet: PolicySet, signals: Signals, t: BeachType)
  {
    && g.position < |policySet.items|
    && g.item == policySet.items[g.position]
    && g.score == ScoreOf(compliance, g.item.id)
    && g.score < ComplianceThreshold
    && g.priority == PriorityScore(g.item, g.score, t, signals)
  }

  /** What the stable sort keeps of the gaps: their relative order among equal
      priorities, their distinct positions, their descriptions and every one of them. */
  lemma RankedFacts(gs: seq<Gap>, keys: seq<real>, compliance: Compliance, policySet: PolicySet,
                    signals: Signals, t: BeachType)
    requires gs == Gaps(compliance, policySet, signals, t)
    requires keys == Priorities(gs)
    ensures var r := SortDesc(gs, keys);
      && (forall a, b :: 0 <= a < b < |r| && r[a].priority == r[b].priority ==>
        r[a].position < r[b].position)
      && (forall a, b :: 0 <= a < |r| && 0 <= b < |r| && a != b ==> r[a].position != r[b].position)
      && (forall k :: 0 <= k < |r| ==> Describes(r[k], compliance, policySet, signals, t))
      && (forall i :: MissingAt(compliance, policySet.items, i) ==> exists k :: 0 <= k < |r| && r[k].position == i)
  {
    var ps := Positions(policySet.items, IsMissing(compliance));
    RankedStable(gs, keys, ps);
    RankedDistinct(gs, keys, ps);
    RankedDescribed(gs, keys, compliance, policySet, signals, t);
    RankedComplete(gs, keys, compliance, policySet, signals, t);
  }

  /** Gaps whose positions increase with their index. */
  predicate AtPositions(gs: seq<Gap>, ps: seq<nat>)
  {
    && |gs| == |ps|
    && (forall k :: 0 <= k < |gs| ==> gs[k].position == ps[k])
    && (forall a, b :: 0 <= a < b < |ps| ==> ps[a] < ps[b])
  }

  lemma RankedStable(gs: seq<Gap>, keys: seq<real>, ps: seq<nat>)
    requires keys == Priorities(gs)
    requires AtPositions(gs, ps)
    ensures var r := SortDesc(gs, keys);
      forall a, b :: 0 <= a < b < |r| && r[a].priority == r[b].priority ==>
        r[a].position < r[b].position
  {
    var r := SortDesc(gs, keys);
    var order := Order(keys);
    forall a, b | 0 <= a < b < |r| && r[a].priority == r[b].priority
      ensures r[a].position < r[b].position
    {
      SortDescIsStable(gs, keys, a, b);
      assert ps[order[a]] < ps[order[b]];
    }
  }

  lemma RankedDistinct(gs: seq<Gap>, keys: seq<real>, ps: seq<nat>)
    requires keys == Priorities(gs)
    requires AtPositions(gs, ps)
    ensures var r := SortDesc(gs, keys);
      forall a, b :: 0 <= a < |r| && 0 <= b < |r| && a != b ==> r[a].position != r[b].position
  {
    var r := SortDesc(gs, keys);
    var order := Order(keys);
    OrderedDistinct(keys, order);
    forall a, b | 0 <= a < |r| && 0 <= b < |r| && a != b
      ensures r[a].position != r[b].position
    {
      assert order[a] != order[b];
      if order[a] < order[b] {
        assert ps[order[a]] < ps[order[b]];
      } else {
        assert ps[order[b]] < ps[order[a]];
      }
    }
  }

  lemma RankedDescribed(gs: seq<Gap>, keys: seq<real>, compliance: Compliance, policySet: PolicySet,
                        signals: Signals, t: BeachType)
    requires gs == Gaps(compliance, policySet, signals, t)
    requires keys == Priorities(gs)
    ensures var r := SortDesc(gs, keys);
      forall k :: 0 <= k < |r| ==> Describes(r[k], compliance, policySet, signals, t)
  {
    var r := SortDesc(gs, keys);
    var order := Order(keys);
    var ps := Positions(policySet.items, IsMissing(compliance));
    forall k | 0 <= k < |r|
      ensures Describes(r[k], compliance, policySet, signals, t)
    {
      var j := order[k];
      assert r[k] == gs[j];
      assert IsMissing(compliance)(policySet.items[ps[j]]);
    }
  }

  lemma RankedComplete(gs: seq<Gap>, keys: seq<real>, compliance: Compliance, policySet: PolicySet,
                       signals: Signals, t: BeachType)
    requires gs == Gaps(compliance, policySet, signals, t)
    requires keys == Priorities(gs)
    ensures var r := SortDesc(gs, keys);
      forall i :: MissingAt(compliance, policySet.items, i) ==> exists k :: 0 <= k < |r| && r[k].position == i
  {
    var items := policySet.items;
    var r := SortDesc(gs, keys);
    var order := Order(keys);
    var ps := Positions(items, IsMissing(compliance));
    forall i | MissingAt(compliance, items, i)
      ensures exists k :: 0 <= k < |r| && r[k].position == i
    {
      assert IsMissing(compliance)(items[i]);
      var j :| 0 <= j < |ps| && ps[j] == i;
      assert j in order;
      var k :| 0 <= k < |order| && order[k] == j;
      assert r[k] == gs[j];
    }
  }

  function Ids(gs: seq<Gap>): (ids: seq<string>)
    ensures |ids| == |gs|
    ensures forall k :: 0 <= k < |gs| ==> ids[k] == gs[k].item.id
  {
    seq(|gs|, k requires 0 <= k < |gs| => gs[k].item.id)
  }

  // ---------------------------------------------------------------------------
  // Notes

  /** The supportive notes, by kind: nothing missing, the count of missing items of high
      severity, the categories to focus on, and few items left. */
  datatype Note = AllMet | HighPriority(count: nat) | FocusAreas(categories: seq<PolicyCategory>) | AlmostThere

  /** The text a note is shown with. */
  function NoteText(note: Note): string
  {
    match note
    case AllMet => "Great news — this beach meets all policy requirements! Keep up the excellent work."
    case HighPriority(count) => HighNote(count)
    case FocusAreas(categories) => FocusNote(categories)
    case AlmostThere => "Almost there — just a few items to address for full compliance."
  }

  /** The texts of a list of notes, in order. */
  function NoteTexts(notes: seq<Note>): (texts: seq<string>)
    ensures |texts| == |notes|
    ensures forall k :: 0 <= k < |notes| ==> texts[k] == NoteText(notes[k])
  {
    seq(|notes|, k requires 0 <= k < |notes| => NoteText(notes[k]))
  }

  /** The note on the missing items of high severity. */
  function HighNote(count: nat): (s: string)
    ensures |s| > 0 && '0' <= s[0] <= '9'
    ensures |NatToString(count)| <= |s| && s[..|NatToString(count)|] == NatToString(count)
  {
    NatToString(count) + " high-priority policy " + (if count == 1 then "item needs" else "items need")
    + " attention — addressing " + (if count == 1 then "it" else "these")
    + " first will have the biggest impact."
  }

  /** `names.join(', ')` */
  function Join(names: seq<string>, sep: string): string
  {
    if |names| == 0 then ""
    else if |names| == 1 then names[0]
    else Join(names[..|names| - 1], sep) + sep + names[|names| - 1]
  }

  /** The note naming the categories to focus on. */
  function FocusNote(categories: seq<PolicyCategory>): (s: string)
    ensures |s| > 0 && s[0] == 'F'
    ensures |s| > |FocusPrefix| && s[..|FocusPrefix|] == FocusPrefix && s[|s| - 1] == '.'
  {
    var names := seq(|categories|, k requires 0 <= k < |categories| => CategoryName(categories[k]));
    var rest := Join(names, ", ") + ".";
    assert (FocusPrefix + rest)[..|FocusPrefix|] == FocusPrefix;
    FocusPrefix + rest
  }

  const FocusPrefix := "Focus areas: "

  /** The categories of the first three missing items, in order. */
  function LeadCategories(gs: seq<Gap>): (firsts: seq<PolicyCategory>)
    ensures |firsts| == if |gs| < FocusCount then |gs| else FocusCount
    ensures forall k :: 0 <= k < |firsts| ==> firsts[k] == gs[k].item.category
  {
    var n := if |gs| < FocusCount then |gs| else FocusCount;
    seq(n, k requires 0 <= k < n => gs[k].item.category)
  }

  /** The distinct categories of the first three missing items, in order of first
      appearance. */
  function FocusCategories(gs: seq<Gap>): (cs: seq<PolicyCategory>)
    ensures |gs| > 0 ==> 1 <= |cs| <= FocusCount
    ensures forall a, b :: 0 <= a < b < |cs| ==> cs[a] != cs[b]
    ensures forall k :: 0 <= k < |gs| && k < FocusCount ==> gs[k].item.category in cs
    ensures forall j :: 0 <= j < |cs| ==> AmongFirst(gs, cs[j])
    ensures forall j :: 0 <= j < |cs| ==> cs[j] in LeadCategories(gs)
    ensures forall a, b :: 0 <= a < b < |cs| ==>
      FirstIndex(LeadCategories(gs), cs[a]) < FirstIndex(LeadCategories(gs), cs[b])
  {
    var firsts := LeadCategories(gs);
    var cs := Dedup(firsts);
    assert forall k :: 0 <= k < |firsts| ==> firsts[k] in cs;
    assert forall j :: 0 <= j < |cs| ==> cs[j] in firsts;
    assert |firsts| > 0 ==> firsts[0] in cs && |cs| > 0;
    FocusFromFirsts(gs, firsts, cs);
    cs
  }

  /** Category `c` is that of one of the first three missing items. */
  predicate AmongFirst(gs: seq<Gap>, c: PolicyCategory)
  {
    exists k :: 0 <= k < |gs| && k < FocusCount && gs[k].item.category == c
  }

  lemma FocusFromFirsts(gs: seq<Gap>, firsts: seq<PolicyCategory>, cs: seq<PolicyCategory>)
    requires |firsts| <= |gs| && |firsts| <= FocusCount
    requires forall k :: 0 <= k < |firsts| ==> firsts[k] == gs[k].item.category
    requires forall j :: 0 <= j < |cs| ==> cs[j] in firsts
    ensures forall j :: 0 <= j < |cs| ==> AmongFirst(gs, cs[j])
  {
    forall j | 0 <= j < |cs|
      ensures AmongFirst(gs, cs[j])
    {
      var k :| 0 <= k < |firsts| && firsts[k] == cs[j];
      assert 0 <= k < |gs| && k < FocusCount && gs[k].item.category == cs[j];
    }
  }

  /** How many of the missing items are of high severity. */
  function HighCount(gs: seq<Gap>): nat
  {
    |Filter(gs, (g: Gap) => g.item.severityIfMissing == High)|
  }

  /** The supportive notes: the all-met note when nothing is missing; otherwise the
      high-severity note when there is such an item, then the focus-areas note, then
      the almost-there note when at most three items are missing. */
  function Notes(gs: seq<Gap>): (notes: seq<Note>)
    ensures |gs| == 0 ==> notes == [AllMet]
    ensures |gs| > 0 ==> |notes| == (if HighCount(gs) > 0 then 1 else 0) + 1 + (if |gs| <= 3 then 1 else 0)
    ensures |gs| > 0 && HighCount(gs) > 0 ==> notes[0] == HighPriority(HighCount(gs))
    ensures |gs| > 0 ==> notes[if HighCount(gs) > 0 then 1 else 0] == FocusAreas(FocusCategories(gs))
    ensures 1 <= |gs| <= 3 ==> notes[|notes| - 1] == AlmostThere
    ensures AlmostThere in notes <==> 1 <= |gs| <= 3
    ensures HighPriority(HighCount(gs)) in notes <==> HighCount(gs) > 0
    ensures AllMet in notes <==> |gs| == 0
  {
    if |gs| == 0 then [AllMet]
    else NotesOf(HighCount(gs), FocusCategories(gs), |gs| <= 3)
  }

  /** The notes for a non-empty list of missing items: the high-severity note when
      `highCount` is positive, the focus note, and the almost-there note when `almost`,
      in that order. */
  function NotesOf(highCount: nat, categories: seq<PolicyCategory>, almost: bool): (notes: seq<Note>)
    ensures |notes| == (if highCount > 0 then 1 else 0) + 1 + (if almost then 1 else 0)
    ensures highCount > 0 ==> notes[0] == HighPriority(highCount)
    ensures notes[if highCount > 0 then 1 else 0] == FocusAreas(categories)
    ensures almost ==> notes[|notes| - 1] == AlmostThere
    ensures AlmostThere in notes <==> almost
    ensures HighPriority(highCount) in notes <==> highCount > 0
    ensures forall x :: x in notes ==> !x.AllMet?
  {
    (if highCount > 0 then [HighPriority(highCount)] else []) + [FocusAreas(categories)]
    + (if almost then [AlmostThere] else [])
  }

  /** `computePolicyGaps(compliance, policySet, signals, beachType)`: the ids of the
      missing items in order of priority, the first five of them, and the notes. */
  function ComputePolicyGaps(compliance: Compliance, policySet: PolicySet, signals: Signals, t: BeachType)
    : (r: PolicyGapMatchup)
    ensures var ranked := RankedGaps(compliance, policySet, signals, t);
      && r.missingPolicyItemIds == Ids(ranked)
      && r.notes == NoteTexts(Notes(ranked))
    ensures r.highestPriorityItemIds == Take(r.missingPolicyItemIds, TopCount)
    ensures |r.highestPriorityItemIds| <= TopCount
  {
    var ranked := RankedGaps(compliance, policySet, signals, t);
    var ids := Ids(ranked);
    PolicyGapMatchup(ids, Take(ids, TopCount), NoteTexts(Notes(ranked)))
  }

  /** An id is reported missing exactly when an item with that id scores below the
      threshold, an item without a score counting as 0. */
  lemma MissingIdsExact(compliance: Compliance, policySet: PolicySet, signals: Signals, t: BeachType)
    ensures var ids := ComputePolicyGaps(compliance, policySet, signals, t).missingPolicyItemIds;
      && (forall k :: 0 <= k < |ids| ==> exists i :: MissingAt(compliance, policySet.items, i) && policySet.items[i].id == ids[k])
      && (forall i :: MissingAt(compliance, policySet.items, i) ==> policySet.items[i].id in ids)
  {
    MissingIdsSound(compliance, policySet, signals, t);
    MissingIdsComplete(compliance, policySet, signals, t);
  }

  lemma MissingIdsSound(compliance: Compliance, policySet: PolicySet, signals: Signals, t: BeachType)
    ensures var ids := ComputePolicyGaps(compliance, policySet, signals, t).missingPolicyItemIds;
      forall k :: 0 <= k < |ids| ==> exists i :: MissingAt(compliance, policySet.items, i) && policySet.items[i].id == ids[k]
  {
    var ranked := RankedGaps(compliance, policySet, signals, t);
    var ids := Ids(ranked);
    forall k | 0 <= k < |ids|
      ensures exists i :: MissingAt(compliance, policySet.items, i) && policySet.items[i].id == ids[k]
    {
      assert Describes(ranked[k], compliance, policySet, signals, t);
      assert MissingAt(compliance, policySet.items, ranked[k].position);
    }
  }

  lemma MissingIdsComplete(compliance: Compliance, policySet: PolicySet, signals: Signals, t: BeachType)
    ensures var ids := ComputePolicyGaps(compliance, policySet, signals, t).missingPolicyItemIds;
      forall i :: MissingAt(compliance, policySet.items, i) ==> policySet.items[i].id in ids
  {
    var ranked := RankedGaps(compliance, policySet, signals, t);
    var ids := Ids(ranked);
    forall i | MissingAt(compliance, policySet.items, i)
      ensures policySet.items[i].id in ids
    {
      var k :| 0 <= k < |ranked| && ranked[k].position == i;
      assert Describes(ranked[k], compliance, policySet, signals, t);
      assert ids[k] == policySet.items[i].id;
    }
  }

  /** With distinct item ids in the policy set, no id is reported missing twice. */
  lemma MissingIdsDistinct(compliance: Compliance, policySet: PolicySet, signals: Signals, t: BeachType)
    requires forall i, j :: 0 <= i < j < |policySet.items| ==> policySet.items[i].id != policySet.items[j].id
    ensures var ids := ComputePolicyGaps(compliance, policySet, signals, t).missingPolicyItemIds;
      forall a, b :: 0 <= a < b < |ids| ==> ids[a] != ids[b]
  {
    var ranked := RankedGaps(compliance, policySet, signals, t);
    forall a, b | 0 <= a < b < |ranked|
      ensures ranked[a].item.id != ranked[b].item.id
    {
      var pa := ranked[a].position;
      var pb := ranked[b].position;
      assert pa != pb;
      if pa < pb {
        assert policySet.items[pa].id != policySet.items[pb].id;
      } else {
        assert policySet.items[pb].id != policySet.items[pa].id;
      }
    }
  }

  /** The missing ids are listed in order of priority, equal priorities in policy-set
      order. */
  lemma MissingIdsByPriority(compliance: Compliance, policySet: PolicySet, signals: Signals, t: BeachType, a: nat, b: nat)
    requires a < b < |ComputePolicyGaps(compliance, policySet, signals, t).missingPolicyItemIds|
    ensures var ranked := RankedGaps(compliance, policySet, signals, t);
      var ids := ComputePolicyGaps(compliance, policySet, signals, t).missingPolicyItemIds;
      && ranked[a].item.id == ids[a] && ranked[b].item.id == ids[b]
      && PriorityScore(ranked[a].item, ScoreOf(compliance, ids[a]), t, signals)
        >= PriorityScore(ranked[b].item, ScoreOf(compliance, ids[b]), t, signals)
      && (PriorityScore(ranked[a].item, ScoreOf(compliance, ids[a]), t, signals)
        == PriorityScore(ranked[b].item, ScoreOf(compliance, ids[b]), t, signals)
        ==> ranked[a].position < ranked[b].position)
  {
    var ranked := RankedGaps(compliance, policySet, signals, t);
    assert Describes(ranked[a], compliance, policySet, signals, t);
    assert Describes(ranked[b], compliance, policySet, signals, t);
  }

  /** `countPolicyGaps(compliance, policySet)`: how many items are missing; none
      exactly when every item meets the threshold. */
  function CountPolicyGaps(compliance: Compliance, policySet: PolicySet): (n: nat)
    ensures n <= |policySet.items|
    ensures n == 0 <==> forall i :: 0 <= i < |policySet.items| ==> !MissingAt(compliance, policySet.items, i)
  {
    NoneMissing(policySet.items, IsMissing(compliance), compliance);
    |Filter(policySet.items, IsMissing(compliance))|
  }

  lemma NoneMissing(items: seq<PolicyItem>, missing: PolicyItem -> bool, compliance: Compliance)
    requires missing == IsMissing(compliance)
    ensures |Positions(items, missing)| == 0 <==> forall i :: 0 <= i < |items| ==> !MissingAt(compliance, items, i)
  {
    var ps := Positions(items, missing);
    if |ps| > 0 {
      assert missing(items[ps[0]]);
      assert MissingAt(compliance, items, ps[0]);
    } else {
      forall i | 0 <= i < |items| ensures !MissingAt(compliance, items, i) {
        assert i !in ps;
      }
    }
  }

  /** The count agrees with the list of missing ids, whatever the beach's signals and type. */
  lemma CountMatchesMissing(compliance: Compliance, policySet: PolicySet, signals: Signals, t: BeachType)
    ensures CountPolicyGaps(compliance, policySet)
      == |ComputePolicyGaps(compliance, policySet, signals, t).missingPolicyItemIds|
  {
    var gs := Gaps(compliance, policySet, signals, t);
    assert |multiset(RankedGaps(compliance, policySet, signals, t))| == |multiset(gs)|;
  }
}
