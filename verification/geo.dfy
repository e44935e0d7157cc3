/** The map helpers of src/utils/geo.ts: the beaches nearest a beach, and the padded
    bounding box of a set of beaches. The haversine distance in kilometres is a
    parameter (any non-negative function). */
module Geo {
  import opened Numeric
  import opened Geodesy
  import opened Filtering
  import opened StableSort
  import opened Domain

  /** Every beach except those sharing the target's id. */
  function Others(target: Beach, all: seq<Beach>): (r: seq<Beach>)
    ensures forall b :: b in r <==> b in all && b.id != target.id
  {
    FilterMembers(all, (b: Beach) => b.id != target.id);
    Filter(all, (b: Beach) => b.id != target.id)
  }

  /** The sort keys that put the nearest first: distances, negated. */
  function NegatedDistances(target: Beach, bs: seq<Beach>, km: Distance): (keys: seq<real>)
    ensures |keys| == |bs|
    ensures forall k :: 0 <= k < |bs| ==> keys[k] == -km(target.location, bs[k].location)
  {
    seq(|bs|, k requires 0 <= k < |bs| => -km(target.location, bs[k].location))
  }

  /** The other beaches, nearest first, ties in input order. */
  function ByDistance(target: Beach, all: seq<Beach>, km: Distance): (r: seq<Beach>)
    ensures multiset(r) == multiset(Others(target, all))
    ensures forall a, b :: 0 <= a < b < |r| ==>
      km(target.location, r[a].location) <= km(target.location, r[b].location)
  {
    var others := Others(target, all);
    var keys := NegatedDistances(target, others, km);
    SortDescIsPermutation(others, keys);
    SortDesc(others, keys)
  }

  /** The number of neighbours `nearestBeaches` returns when the caller gives none. */
  const DefaultNearestCount: int := 3

  /** `nearestBeaches(target, allBeaches, n)` */
  function NearestBeaches(target: Beach, all: seq<Beach>, n: int, km: Distance): (r: seq<Beach>)
    ensures forall k :: 0 <= k < |r| ==> r[k].id != target.id && r[k] in all
    ensures multiset(r) <= multiset(Others(target, all))
    ensures n >= 0 ==> |r| == if n < |Others(target, all)| then n else |Others(target, all)|
    ensures forall a, b :: 0 <= a < b < |r| ==>
      km(target.location, r[a].location) <= km(target.location, r[b].location)
    ensures forall x, k :: x in all && x.id != target.id && x !in r && 0 <= k < |r| ==>
      km(target.location, r[k].location) <= km(target.location, x.location)
  {
    var sorted := ByDistance(target, all, km);
    var r := Take(sorted, n);
    TakeFromSorted(target, all, km, sorted, r);
    NoneOmittedNearer(target, all, km, sorted, r);
    r
  }

  /** A prefix of the distance order holds other beaches only, each no more often than
      the input does. */
  lemma TakeFromSorted(target: Beach, all: seq<Beach>, km: Distance, sorted: seq<Beach>, r: seq<Beach>)
    requires sorted == ByDistance(target, all, km)
    requires |r| <= |sorted| && r == sorted[..|r|]
    ensures forall k :: 0 <= k < |r| ==> r[k].id != target.id && r[k] in all
    ensures multiset(r) <= multiset(Others(target, all))
  {
    PrefixMultiset(sorted, |r|);
    forall k | 0 <= k < |r|
      ensures r[k].id != target.id && r[k] in all
    {
      assert r[k] == sorted[k];
      assert r[k] in multiset(Others(target, all));
    }
  }

  lemma PrefixMultiset(s: seq<Beach>, n: nat)
    requires n <= |s|
    ensures multiset(s[..n]) <= multiset(s)
  {
    assert s == s[..n] + s[n..];
  }

  /** Nothing left out of a prefix of the distance order is strictly nearer than what
      the prefix holds. */
  lemma NoneOmittedNearer(target: Beach, all: seq<Beach>, km: Distance, sorted: seq<Beach>, r: seq<Beach>)
    requires sorted == ByDistance(target, all, km)
    requires |r| <= |sorted| && r == sorted[..|r|]
    ensures forall x, k :: x in all && x.id != target.id && x !in r && 0 <= k < |r| ==>
      km(target.location, r[k].location) <= km(target.location, x.location)
  {
    forall x, k | x in all && x.id != target.id && x !in r && 0 <= k < |r|
      ensures km(target.location, r[k].location) <= km(target.location, x.location)
    {
      assert x in Others(target, all);
      assert x in multiset(sorted);
      PrefixNearest(target, km, sorted, r, x, k);
    }
  }

  /** In a list sorted by distance, what a prefix holds is no farther than any element
      outside it. */
  lemma PrefixNearest(target: Beach, km: Distance, sorted: seq<Beach>, r: seq<Beach>, x: Beach, k: nat)
    requires forall a, b :: 0 <= a < b < |sorted| ==>
      km(target.location, sorted[a].location) <= km(target.location, sorted[b].location)
    requires |r| <= |sorted| && r == sorted[..|r|]
    requires x in sorted && x !in r && k < |r|
    ensures km(target.location, r[k].location) <= km(target.location, x.location)
  {
    var j :| 0 <= j < |sorted| && sorted[j] == x;
    assert j >= |r|;
    assert r[k] == sorted[k];
  }

  datatype Bounds = Bounds(southWest: LatLng, northEast: LatLng)

  /** Some beach has this latitude. */
  predicate LatAttained(beaches: seq<Beach>, lat: real)
  {
    exists k :: 0 <= k < |beaches| && beaches[k].location.lat == lat
  }

  /** Some beach has this longitude. */
  predicate LngAttained(beaches: seq<Beach>, lng: real)
  {
    exists k :: 0 <= k < |beaches| && beaches[k].location.lng == lng
  }

  /** Every beach lies between the two corners. */
  predicate Encloses(beaches: seq<Beach>, lo: LatLng, hi: LatLng)
  {
    forall k :: 0 <= k < |beaches| ==>
      lo.lat <= beaches[k].location.lat <= hi.lat && lo.lng <= beaches[k].location.lng <= hi.lng
  }

  /** Each coordinate of the two corners is some beach's. */
  predicate Attains(beaches: seq<Beach>, lo: LatLng, hi: LatLng)
  {
    && LatAttained(beaches, lo.lat) && LatAttained(beaches, hi.lat)
    && LngAttained(beaches, lo.lng) && LngAttained(beaches, hi.lng)
  }

  /** The corners widened to take in one more point. */
  function Widen(lo: LatLng, hi: LatLng, p: LatLng): (corners: (LatLng, LatLng))
  {
    (LatLng(Min(lo.lat, p.lat), Min(lo.lng, p.lng)), LatLng(Max(hi.lat, p.lat), Max(hi.lng, p.lng)))
  }

  /** The padding, in degrees, `computeBounds` uses when the caller gives none. */
  const DefaultPaddingDeg: real := 0.01

  /** `computeBounds(beaches, paddingDeg)`: for no beaches both corners are the origin;
      otherwise the smallest and largest latitude and longitude, widened by the padding.
      The loop starts from the first beach, where the source starts from infinities the
      first comparison replaces. */
  method ComputeBounds(beaches: seq<Beach>, paddingDeg: real) returns (b: Bounds)
    ensures |beaches| == 0 ==> b == Bounds(Origin, Origin)
    ensures |beaches| > 0 ==> forall k :: 0 <= k < |beaches| ==>
      && b.southWest.lat + paddingDeg <= beaches[k].location.lat <= b.northEast.lat - paddingDeg
      && b.southWest.lng + paddingDeg <= beaches[k].location.lng <= b.northEast.lng - paddingDeg
    ensures |beaches| > 0 ==>
      && LatAttained(beaches, b.southWest.lat + paddingDeg)
      && LatAttained(beaches, b.northEast.lat - paddingDeg)
      && LngAttained(beaches, b.southWest.lng + paddingDeg)
      && LngAttained(beaches, b.northEast.lng - paddingDeg)
    ensures paddingDeg >= 0.0 ==> forall k :: 0 <= k < |beaches| ==>
      && b.southWest.lat <= beaches[k].location.lat <= b.northEast.lat
      && b.southWest.lng <= beaches[k].location.lng <= b.northEast.lng
  {
    if |beaches| == 0 {
      return Bounds(Origin, Origin);
    }
    var lo, hi := beaches[0].location, beaches[0].location;
    assert beaches[..1] == [beaches[0]];
    for i := 1 to |beaches|
      invariant Encloses(beaches[..i], lo, hi)
      invariant Attains(beaches[..i], lo, hi)
    {
      WidenEncloses(beaches, i, lo, hi);
      WidenAttains(beaches, i, lo, hi);
      lo, hi := Widen(lo, hi, beaches[i].location).0, Widen(lo, hi, beaches[i].location).1;
    }
    assert beaches[..|beaches|] == beaches;
    b := Bounds(LatLng(lo.lat - paddingDeg, lo.lng - paddingDeg), LatLng(hi.lat + paddingDeg, hi.lng + paddingDeg));
  }

  /** Widening by the next beach encloses the next longer prefix. */
  lemma WidenEncloses(beaches: seq<Beach>, i: nat, lo: LatLng, hi: LatLng)
    requires 0 < i < |beaches|
    requires Encloses(beaches[..i], lo, hi)
    ensures var corners := Widen(lo, hi, beaches[i].location);
      Encloses(beaches[..i + 1], corners.0, corners.1)
  {
    assert forall k :: 0 <= k < i ==> beaches[..i + 1][k] == beaches[..i][k];
  }

  /** Widening by the next beach keeps every corner coordinate some beach's. */
  lemma WidenAttains(beaches: seq<Beach>, i: nat, lo: LatLng, hi: LatLng)
    requires 0 < i < |beaches|
    requires Attains(beaches[..i], lo, hi)
    ensures var corners := Widen(lo, hi, beaches[i].location);
      Attains(beaches[..i + 1], corners.0, corners.1)
  {
    assert beaches[..i + 1][i] == beaches[i];
    assert forall k :: 0 <= k < i ==> beaches[..i + 1][k] == beaches[..i][k];
  }
}
