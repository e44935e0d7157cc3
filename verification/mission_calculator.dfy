/** The mission resource calculator of src/utils/missionCalculator.ts: people and ships
    needed to clear a tonnage in a given number of days, the zone with the most plastic,
    and the length of a mission in days. */
module MissionCalculator {
  import opened Numeric
  import opened Options

  datatype CalculatorInput = CalculatorInput(
    totalPlasticTons: real,
    extractionRatePerPersonPerDay: real,
    peoplePerShip: real,
    durationDays: real)

  datatype CalculatorResult = CalculatorResult(
    peopleRequired: int,
    shipsRequired: int,
    valid: bool,
    error: Option<string>)

  const NegativeInputError: string := "Inputs must be non-negative."
  const ZeroRateOrDurationError: string := "Extraction rate and duration must be greater than zero."
  const ZeroPeoplePerShipError: string := "People per ship must be greater than zero."

  /** A result with no people, no ships and the given validity and message. */
  function Nothing(valid: bool, error: Option<string>): (r: CalculatorResult)
    ensures r.peopleRequired == 0 && r.shipsRequired == 0
    ensures r.valid == valid && r.error == error
  {
    CalculatorResult(0, 0, valid, error)
  }

  predicate AnyNegative(input: CalculatorInput)
  {
    || input.totalPlasticTons < 0.0
    || input.extractionRatePerPersonPerDay < 0.0
    || input.peoplePerShip < 0.0
    || input.durationDays < 0.0
  }

  /** `computeResources(input)`: the checks in order (a negative input, nothing to
      collect, no rate or no days, no room on a ship), then the people who collect the
      tons in time and the ships that carry them, both rounded up. */
  function ComputeResources(input: CalculatorInput): (r: CalculatorResult)
    ensures AnyNegative(input) ==> r == Nothing(false, Some(NegativeInputError))
    ensures !AnyNegative(input) && input.totalPlasticTons == 0.0 ==> r == Nothing(true, None)
    ensures !AnyNegative(input) && input.totalPlasticTons > 0.0
      && (input.extractionRatePerPersonPerDay == 0.0 || input.durationDays == 0.0)
      ==> r == Nothing(false, Some(ZeroRateOrDurationError))
    ensures !AnyNegative(input) && input.totalPlasticTons > 0.0
      && input.extractionRatePerPersonPerDay > 0.0 && input.durationDays > 0.0
      && input.peoplePerShip == 0.0
      ==> r == Nothing(false, Some(ZeroPeoplePerShipError))
    ensures r.valid <==> r.error.None?
    ensures r.valid <==> (!AnyNegative(input) && (input.totalPlasticTons == 0.0
      || (input.extractionRatePerPersonPerDay > 0.0 && input.durationDays > 0.0 && input.peoplePerShip > 0.0)))
    ensures r.peopleRequired >= 0 && r.shipsRequired >= 0
  {
    if AnyNegative(input) then Nothing(false, Some(NegativeInputError))
    else if input.totalPlasticTons == 0.0 then Nothing(true, None)
    else if input.extractionRatePerPersonPerDay == 0.0 || input.durationDays == 0.0 then
      Nothing(false, Some(ZeroRateOrDurationError))
    else if input.peoplePerShip == 0.0 then Nothing(false, Some(ZeroPeoplePerShipError))
    else Staffed(input)
  }

  /** What one person collects over the whole mission. */
  function Capacity(input: CalculatorInput): (c: real)
    requires input.extractionRatePerPersonPerDay > 0.0 && input.durationDays > 0.0
    ensures c > 0.0
  {
    MulPositive(input.extractionRatePerPersonPerDay, input.durationDays);
    input.extractionRatePerPersonPerDay * input.durationDays
  }

  /** Every input is positive: the crew and the fleet, rounded up. */
  predicate AllPositive(input: CalculatorInput)
  {
    && input.totalPlasticTons > 0.0 && input.extractionRatePerPersonPerDay > 0.0
    && input.durationDays > 0.0 && input.peoplePerShip > 0.0
  }

  function Staffed(input: CalculatorInput): (r: CalculatorResult)
    requires AllPositive(input)
    ensures r.valid && r.error.None?
    ensures r.peopleRequired >= 1 && r.shipsRequired >= 1
  {
    var capacity := Capacity(input);
    DivPositive(input.totalPlasticTons, capacity);
    var people := Ceil(input.totalPlasticTons / capacity);
    DivPositive(people as real, input.peoplePerShip);
    CalculatorResult(people, Ceil(people as real / input.peoplePerShip), true, None)
  }

  /** The valid case with something to collect is the staffed one. */
  lemma ValidResources(input: CalculatorInput)
    requires ComputeResources(input).valid && input.totalPlasticTons > 0.0
    ensures AllPositive(input)
    ensures ComputeResources(input) == Staffed(input)
  {
  }

  /** In the valid case with something to collect, the crew is the smallest that
      collects the tons in time, and the fleet the smallest that carries the crew. */
  lemma ResourcesAreLeastSufficient(input: CalculatorInput)
    requires ComputeResources(input).valid && input.totalPlasticTons > 0.0
    ensures var r := ComputeResources(input);
      var capacity := input.extractionRatePerPersonPerDay * input.durationDays;
      && capacity > 0.0
      && r.peopleRequired >= 1 && r.shipsRequired >= 1
      && r.peopleRequired as real * capacity >= input.totalPlasticTons
      && (r.peopleRequired - 1) as real * capacity < input.totalPlasticTons
      && r.shipsRequired as real * input.peoplePerShip >= r.peopleRequired as real
      && (r.shipsRequired - 1) as real * input.peoplePerShip < r.peopleRequired as real
  {
    ValidResources(input);
    var capacity := Capacity(input);
    var people := Ceil(input.totalPlasticTons / capacity);
    CeilDivLeast(input.totalPlasticTons, capacity);
    CeilDivLeast(people as real, input.peoplePerShip);
  }

  /** More plastic, with everything else the same, never needs fewer people or ships. */
  lemma ResourcesMonotone(input: CalculatorInput, more: real)
    requires ComputeResources(input).valid && input.totalPlasticTons > 0.0
    requires more >= input.totalPlasticTons
    ensures var bigger := input.(totalPlasticTons := more);
      && ComputeResources(bigger).valid
      && ComputeResources(bigger).peopleRequired >= ComputeResources(input).peopleRequired
      && ComputeResources(bigger).shipsRequired >= ComputeResources(input).shipsRequired
  {
    var bigger := input.(totalPlasticTons := more);
    ValidResources(input);
    assert AllPositive(bigger);
    var capacity := Capacity(input);
    assert Capacity(bigger) == capacity;
    CeilDivMonotone(input.totalPlasticTons, more, capacity);
    var p1 := Ceil(input.totalPlasticTons / capacity);
    var p2 := Ceil(more / capacity);
    CeilDivMonotone(p1 as real, p2 as real, input.peoplePerShip);
  }

  /** The worked examples: 100 t at 0.05 t per person-day over 10 days is 200 people
      on 17 ships of 12; 0.001 t still needs one person and one ship; 12 t at 1 t per
      person-day in one day is 12 people on 2 ships of 6, with no extra rounding. */
  lemma ResourceExamples()
    ensures ComputeResources(CalculatorInput(100.0, 0.05, 12.0, 10.0)) == CalculatorResult(200, 17, true, None)
    ensures ComputeResources(CalculatorInput(0.001, 0.05, 12.0, 7.0)) == CalculatorResult(1, 1, true, None)
    ensures ComputeResources(CalculatorInput(12.0, 1.0, 6.0, 1.0)) == CalculatorResult(12, 2, true, None)
    ensures ComputeResources(CalculatorInput(0.0, 0.05, 12.0, 10.0)) == CalculatorResult(0, 0, true, None)
  {
    assert Ceil(100.0 / (0.05 * 10.0)) == 200;
    assert Ceil(200.0 / 12.0) == 17;
    assert Ceil(0.001 / (0.05 * 7.0)) == 1;
    assert Ceil(1.0 / 12.0) == 1;
    assert Ceil(12.0 / (1.0 * 1.0)) == 12;
    assert Ceil(12.0 / 6.0) == 2;
  }

  // ---------------------------------------------------------------------------
  // Highest plastic zone

  datatype Zone = Zone(id: string, name: string, estimatedTons: real)

  function ZoneTons(zones: seq<Zone>): (ts: seq<real>)
    ensures |ts| == |zones|
    ensures forall i :: 0 <= i < |zones| ==> ts[i] == zones[i].estimatedTons
  {
    seq(|zones|, i requires 0 <= i < |zones| => zones[i].estimatedTons)
  }

  /** `getHighestPlasticZone(zones)`: none for no zones, otherwise the first zone with
      the largest estimate (the reduce keeps its accumulator on ties). */
  function GetHighestPlasticZone(zones: seq<Zone>): (r: Option<Zone>)
    ensures |zones| == 0 <==> r.None?
    ensures r.Some? ==> exists k :: (0 <= k < |zones| && zones[k] == r.value
      && (forall j :: 0 <= j < |zones| ==> zones[j].estimatedTons <= zones[k].estimatedTons)
      && (forall j :: 0 <= j < k ==> zones[j].estimatedTons < zones[k].estimatedTons))
  {
    if |zones| == 0 then None
    else
      var ts := ZoneTons(zones);
      var k := ArgMax(ts);
      assert forall j :: 0 <= j < |zones| ==> ts[j] <= ts[k];
      Some(zones[k])
  }

  /** The worked example: of 10, 50 and 30 t, zone "b" with 50 t is the highest. */
  lemma HighestZoneExample()
    ensures GetHighestPlasticZone([Zone("a", "Zone A", 10.0), Zone("b", "Zone B", 50.0), Zone("c", "Zone C", 30.0)])
      == Some(Zone("b", "Zone B", 50.0))
  {
    var zones := [Zone("a", "Zone A", 10.0), Zone("b", "Zone B", 50.0), Zone("c", "Zone C", 30.0)];
    var r := GetHighestPlasticZone(zones);
    var k :| 0 <= k < |zones| && zones[k] == r.value
      && (forall j :: 0 <= j < |zones| ==> zones[j].estimatedTons <= zones[k].estimatedTons);
    assert zones[k].estimatedTons >= zones[1].estimatedTons;
  }

  // ---------------------------------------------------------------------------
  // Mission duration

  const MillisPerDay: int := 1000 * 60 * 60 * 24
  const DefaultDurationDays: int := 7

  /** `deriveDurationDays(startDate, endDate)`, with each date already parsed to a
      timestamp in milliseconds (`None` for a date that is missing or does not parse,
      where the source gets `NaN`): 7 days without an end date or a readable pair,
      otherwise the started days between the two instants, and 7 again when that is
      not positive. */
  function DeriveDurationDays(startMs: Option<int>, endMs: Option<int>): (days: int)
    ensures days >= 1
    ensures startMs.None? || endMs.None? ==> days == DefaultDurationDays
    ensures startMs.Some? && endMs.Some? && endMs.value > startMs.value ==>
      var span := (endMs.value - startMs.value) as real;
      && (days as real) * (MillisPerDay as real) >= span
      && ((days - 1) as real) * (MillisPerDay as real) < span
    ensures startMs.Some? && endMs.Some? && endMs.value <= startMs.value ==> days == DefaultDurationDays
  {
    if endMs.None? || startMs.None? then DefaultDurationDays
    else
      var span := (endMs.value - startMs.value) as real;
      var d := Ceil(span / MillisPerDay as real);
      CeilDivLeast(span, MillisPerDay as real);
      if d > 0 then d else DefaultDurationDays
  }

  /** The worked example: 10 February to 15 March 2026 is 33 days. */
  lemma DurationExample(startMs: int)
    ensures DeriveDurationDays(Some(startMs), Some(startMs + 33 * MillisPerDay)) == 33
  {
    assert (33 * MillisPerDay) as real / MillisPerDay as real == 33.0;
  }
}
