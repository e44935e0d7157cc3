/** Coordinates and the three spherical-geometry primitives of the shoreline analytics:
    haversine distance, initial bearing and the flat-earth point offset. Their
    trigonometric bodies are not modelled: each is a parameter of the operations that
    call it, and the only property assumed of a distance is that it is never negative. */
module Geodesy {
  import opened Numeric

  /** A geographic coordinate in degrees. */
  datatype LatLng = LatLng(lat: real, lng: real)

  /** The coordinate `polyline[0] ?? { lat: 0, lng: 0 }` falls back to. */
  const Origin: LatLng := LatLng(0.0, 0.0)

  /** `Math.PI`, as the literal JavaScript prints it. */
  const PI: real := 3.141592653589793

  /** A distance in metres between two coordinates (the haversine formula with Earth
      radius 6,371,000 m in the source): any non-negative function. */
  type Distance = f: (LatLng, LatLng) -> real | forall a, b :: f(a, b) >= 0.0
    witness (a: LatLng, b: LatLng) => 0.0

  /** The geometry the band builder needs: distance, bearing in radians clockwise
      from north, and the offset of a point by a distance along a bearing. */
  datatype Sphere = Sphere(
    distance: Distance,
    bearing: (LatLng, LatLng) -> real,
    offset: (LatLng, real, real) -> LatLng)

  /** The plain lat/lng average of two coordinates (not the geodesic midpoint). */
  function Midpoint(a: LatLng, b: LatLng): (m: LatLng)
    ensures m.lat - a.lat == b.lat - m.lat
    ensures m.lng - a.lng == b.lng - m.lng
  {
    LatLng((a.lat + b.lat) / 2.0, (a.lng + b.lng) / 2.0)
  }

  /** The point at fraction `t` of the way from `a` to `b`, coordinate by coordinate. */
  function Lerp(a: LatLng, b: LatLng, t: real): (p: LatLng)
    ensures t == 0.0 ==> p == a
    ensures t == 1.0 ==> p == b
    ensures p.lat - a.lat == t * (b.lat - a.lat) && p.lng - a.lng == t * (b.lng - a.lng)
  {
    LatLng(a.lat + t * (b.lat - a.lat), a.lng + t * (b.lng - a.lng))
  }

  /** Going a fraction `t` from `a` towards `b` reaches the point `1 - t` of the way
      back from `b` towards `a`. */
  lemma LerpReversed(a: LatLng, b: LatLng, t: real)
    ensures Lerp(a, b, t) == Lerp(b, a, 1.0 - t)
  {
    assert a.lat + t * (b.lat - a.lat) == b.lat + (1.0 - t) * (a.lat - b.lat);
    assert a.lng + t * (b.lng - a.lng) == b.lng + (1.0 - t) * (a.lng - b.lng);
  }

  /** For a fraction in [0, 1] each coordinate of the point lies between those of the
      two ends. */
  lemma LerpBetween(a: LatLng, b: LatLng, t: real)
    requires 0.0 <= t <= 1.0
    ensures var p := Lerp(a, b, t);
      && (a.lat <= p.lat <= b.lat || b.lat <= p.lat <= a.lat)
      && (a.lng <= p.lng <= b.lng || b.lng <= p.lng <= a.lng)
  {
    var p := Lerp(a, b, t);
    Between(a.lat, b.lat, t, p.lat);
    Between(a.lng, b.lng, t, p.lng);
  }

  lemma Between(x: real, y: real, t: real, z: real)
    requires 0.0 <= t <= 1.0 && z - x == t * (y - x)
    ensures x <= z <= y || y <= z <= x
  {
    if x <= y {
      Fraction(t, y - x, z - x);
    } else {
      Reversed(t, x, y);
      Fraction(t, x - y, x - z);
    }
  }

  /** A fraction `t` of a non-negative length `d` is at most `d`. */
  lemma Fraction(t: real, d: real, e: real)
    requires 0.0 <= t <= 1.0 && d >= 0.0 && e == t * d
    ensures 0.0 <= e <= d
  {
    MulLe(0.0, t, d);
    MulLe(t, 1.0, d);
  }

  lemma Reversed(t: real, x: real, y: real)
    ensures t * (x - y) == -(t * (y - x))
  {
  }



}
