/** The mission lookups of src/data/missions.ts: a mission by id, and the missions
    grouped into one bucket per priority. The mission list is a parameter; the mock
    missions themselves are data, not logic. */
module Missions {
  import opened Options
  import opened Geodesy
  import opened Filtering
  import opened MissionCalculator
  import opened ShorelineAnalytics

  datatype MissionPriority = HighPriority | MediumPriority | LowPriority

  datatype MissionStatus = Ongoing | Upcoming | Completed

  /** A mission as src/types/mission.ts declares it; the dates stay ISO strings and
      the optional end date is `None` when absent. */
  datatype Mission = Mission(
    id: string,
    name: string,
    priority: MissionPriority,
    status: MissionStatus,
    startDate: string,
    endDate: Option<string>,
    locationName: string,
    location: LatLng,
    estimatedPlasticTons: real,
    estimatedItems: real,
    zones: seq<Zone>,
    heatmapPoints: seq<HeatPoint>,
    shoreline: seq<LatLng>,
    shorelineBandWidthMeters: real,
    shipAccessPoints: seq<AccessPoint>)

  /** `missions.find(m => m.id === id)` */
  function GetMissionById(missions: seq<Mission>, id: string): (r: Option<Mission>)
    ensures r.None? <==> forall k :: 0 <= k < |missions| ==> missions[k].id != id
    ensures r.Some? ==> r.value.id == id && r.value in missions
    ensures r.Some? ==> exists k :: (0 <= k < |missions| && missions[k] == r.value
      && forall j :: 0 <= j < k ==> missions[j].id != id)
  {
    Find(missions, (m: Mission) => m.id == id)
  }

  /** With distinct ids, every mission is found by its own id. */
  lemma FindsEveryMission(missions: seq<Mission>, k: nat)
    requires k < |missions|
    requires forall i, j :: 0 <= i < j < |missions| ==> missions[i].id != missions[j].id
    ensures GetMissionById(missions, missions[k].id) == Some(missions[k])
  {
    var r := GetMissionById(missions, missions[k].id);
    var j :| 0 <= j < |missions| && missions[j] == r.value
      && forall i :: 0 <= i < j ==> missions[i].id != missions[k].id;
    assert j <= k;
    if j < k {
      assert missions[j].id == missions[k].id;
    }
  }

  /** The three buckets `{ HIGH, MEDIUM, LOW }`. */
  datatype Groups = Groups(high: seq<Mission>, medium: seq<Mission>, low: seq<Mission>)

  function HasPriority(p: MissionPriority): (f: Mission -> bool)
    ensures forall m :: f(m) <==> m.priority == p
  {
    (m: Mission) => m.priority == p
  }

  /** The bucket a priority names. */
  function Bucket(groups: Groups, p: MissionPriority): seq<Mission>
  {
    match p
    case HighPriority => groups.high
    case MediumPriority => groups.medium
    case LowPriority => groups.low
  }

  /** `groupMissionsByPriority(missions)`: each mission pushed onto the bucket of its
      priority, in input order. */
  method GroupMissionsByPriority(missions: seq<Mission>) returns (groups: Groups)
    ensures forall p :: Bucket(groups, p) == Filter(missions, HasPriority(p))
    ensures |groups.high| + |groups.medium| + |groups.low| == |missions|
  {
    groups := Groups([], [], []);
    for i := 0 to |missions|
      invariant groups.high == Filter(missions[..i], HasPriority(HighPriority))
      invariant groups.medium == Filter(missions[..i], HasPriority(MediumPriority))
      invariant groups.low == Filter(missions[..i], HasPriority(LowPriority))
    {
      GroupStep(missions, i, groups);
      groups := Push(groups, missions[i]);
    }
    assert missions[..|missions|] == missions;
    BucketsAreFilters(missions, groups);
  }

  /** Three buckets holding the three priority filters are every bucket's filter, and
      together they hold every mission once. */
  lemma BucketsAreFilters(missions: seq<Mission>, groups: Groups)
    requires groups.high == Filter(missions, HasPriority(HighPriority))
    requires groups.medium == Filter(missions, HasPriority(MediumPriority))
    requires groups.low == Filter(missions, HasPriority(LowPriority))
    ensures forall p :: Bucket(groups, p) == Filter(missions, HasPriority(p))
    ensures |groups.high| + |groups.medium| + |groups.low| == |missions|
  {
    forall p
      ensures Bucket(groups, p) == Filter(missions, HasPriority(p))
    {
      match p
      case HighPriority =>
      case MediumPriority =>
      case LowPriority =>
    }
    PartitionSizes(missions, HasPriority(HighPriority), HasPriority(MediumPriority), HasPriority(LowPriority));
  }

  /** `groups[m.priority].push(m)` */
  function Push(groups: Groups, m: Mission): Groups
  {
    Groups(
      if m.priority == HighPriority then groups.high + [m] else groups.high,
      if m.priority == MediumPriority then groups.medium + [m] else groups.medium,
      if m.priority == LowPriority then groups.low + [m] else groups.low)
  }

  /** Pushing the next mission keeps each bucket the filter of the missions seen. */
  lemma GroupStep(missions: seq<Mission>, i: nat, groups: Groups)
    requires i < |missions|
    requires groups.high == Filter(missions[..i], HasPriority(HighPriority))
    requires groups.medium == Filter(missions[..i], HasPriority(MediumPriority))
    requires groups.low == Filter(missions[..i], HasPriority(LowPriority))
    ensures Push(groups, missions[i]).high == Filter(missions[..i + 1], HasPriority(HighPriority))
    ensures Push(groups, missions[i]).medium == Filter(missions[..i + 1], HasPriority(MediumPriority))
    ensures Push(groups, missions[i]).low == Filter(missions[..i + 1], HasPriority(LowPriority))
  {
    var m := missions[i];
    assert missions[..i + 1] == missions[..i] + [m];
    PushStep(missions[..i], m, HighPriority, groups.high);
    PushStep(missions[..i], m, MediumPriority, groups.medium);
    PushStep(missions[..i], m, LowPriority, groups.low);
  }

  /** Pushing a mission onto the bucket of its priority extends that bucket's filter by
      one element, and leaves the other buckets' filters as they are. */
  lemma PushStep(prefix: seq<Mission>, m: Mission, p: MissionPriority, bucket: seq<Mission>)
    requires bucket == Filter(prefix, HasPriority(p))
    ensures (if m.priority == p then bucket + [m] else bucket) == Filter(prefix + [m], HasPriority(p))
  {
    FilterSnoc(prefix, m, HasPriority(p));
  }

  lemma BucketMembers(missions: seq<Mission>, p: MissionPriority)
    ensures forall m :: m in Filter(missions, HasPriority(p)) <==> m in missions && m.priority == p
  {
    FilterMembers(missions, HasPriority(p));
  }
}
