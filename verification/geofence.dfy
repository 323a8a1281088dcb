/** The geofence that gates where a pinpoint may be dropped: a fixed
    axis-aligned latitude/longitude rectangle around Gainesville, built the
    way the mapping library builds bounds from a pair of corners, and the
    closed-interval membership test the click handler asks of it. */
module Geofence {

  /** A geographic coordinate in degrees. Only comparisons are ever made on
      coordinates, so they are modelled as exact reals. */
  datatype LatLng = LatLng(lat: real, lng: real)

  /** An axis-aligned rectangle given by its south-west and north-east
      corners. */
  datatype Bounds = Bounds(sw: LatLng, ne: LatLng)

  /** The smaller of two reals. */
  function Min(a: real, b: real): (r: real)
    ensures r <= a && r <= b
    ensures r == a || r == b
  {
    if a <= b then a else b
  }

  /** The larger of two reals. */
  function Max(a: real, b: real): (r: real)
    ensures a <= r && b <= r
    ensures r == a || r == b
  {
    if a <= b then b else a
  }

  /** `x` lies on the closed segment between `a` and `b`, in either order. */
  predicate Between(a: real, b: real, x: real)
  {
    (a <= x <= b) || (b <= x <= a)
  }

  /** The corners are ordered on both axes. */
  predicate WellFormed(b: Bounds)
  {
    b.sw.lat <= b.ne.lat && b.sw.lng <= b.ne.lng
  }

  /** Membership as the mapping library's `contains` decides it for a single
      point: a closed interval on each axis, with no wrap-around at the
      antimeridian. Points on an edge are inside. */
  predicate Contains(b: Bounds, p: LatLng)
  {
    b.sw.lat <= p.lat <= b.ne.lat && b.sw.lng <= p.lng <= b.ne.lng
  }

  /** The degenerate bounds the library starts from when it is first extended
      by a point. */
  function Around(p: LatLng): (r: Bounds)
    ensures WellFormed(r)
    ensures forall q :: Contains(r, q) <==> q == p
  {
    Bounds(p, p)
  }

  /** The library's `extend`: widen the bounds to take in one more point by
      taking the minimum of the south-west and the maximum of the north-east
      corner on each axis. */
  function Extend(b: Bounds, p: LatLng): (r: Bounds)
    ensures forall q :: Contains(r, q) <==>
              && Min(b.sw.lat, p.lat) <= q.lat <= Max(b.ne.lat, p.lat)
              && Min(b.sw.lng, p.lng) <= q.lng <= Max(b.ne.lng, p.lng)
    ensures Contains(r, p)
    ensures WellFormed(b) ==> WellFormed(r)
    ensures forall q :: Contains(b, q) ==> Contains(r, q)
  {
    Bounds(LatLng(Min(b.sw.lat, p.lat), Min(b.sw.lng, p.lng)),
           LatLng(Max(b.ne.lat, p.lat), Max(b.ne.lng, p.lng)))
  }

  /** The library's bounds constructor applied to a two-corner array: start
      at the first corner and extend by the second. The corners may be given
      in either order; the result always has its corners ordered and holds
      exactly the points between the two given corners on both axes. */
  function FromCorners(a: LatLng, b: LatLng): (r: Bounds)
    ensures WellFormed(r)
    ensures Contains(r, a) && Contains(r, b)
    ensures forall p :: Contains(r, p) <==> Between(a.lat, b.lat, p.lat) && Between(a.lng, b.lng, p.lng)
  {
    Extend(Around(a), b)
  }

  /** The region's corner literals as the program holds them at run time:
      each decimal literal becomes the nearest IEEE 754 double, written out
      here exactly. Clicks arrive as doubles too, so comparing these exact
      values as reals decides every click as the page does. */
  const SouthLat: real := 29.582699999999999107558323885314166545867919921875
  const WestLng: real := -82.6526999999999958390617393888533115386962890625
  const NorthLat: real := 29.707499999999999573674358543939888477325439453125
  const EastLng: real := -82.2811999999999983401721692644059658050537109375

  /** The two corners of the permitted region, in the order the application
      lists them. */
  const SouthWest: LatLng := LatLng(SouthLat, WestLng)
  const NorthEast: LatLng := LatLng(NorthLat, EastLng)

  /** Each stored corner value is within 10^-14 of the decimal literal it
      stands for; the south and east values lie just outside the decimal
      rectangle, the north and west values just inside it. */
  lemma StoredCornersNearLiterals()
    ensures 29.5827 - 0.00000000000001 < SouthLat < 29.5827
    ensures -82.6527 < WestLng < -82.6527 + 0.00000000000001
    ensures 29.7075 - 0.00000000000001 < NorthLat < 29.7075
    ensures -82.2812 < EastLng < -82.2812 + 0.00000000000001
  {
  }

  /** The permitted region. */
  const Region: Bounds := FromCorners(SouthWest, NorthEast)

  /** The region's corners come out exactly as listed (they were already
      given south-west first), and the region is well formed. */
  lemma RegionCorners()
    ensures Region == Bounds(SouthWest, NorthEast)
    ensures WellFormed(Region)
  {
  }

  /** A point is inside the region if and only if its latitude and its
      longitude both lie in the closed ranges the two stored corners span. */
  lemma RegionMembership(p: LatLng)
    ensures Contains(Region, p) <==>
              SouthLat <= p.lat <= NorthLat && WestLng <= p.lng <= EastLng
  {
    RegionCorners();
  }

  /** Points exactly on each edge and at each corner are accepted, among
      them the stored south and east edge values that lie just outside the
      decimal literals; points a ten-thousandth of a degree beyond each edge
      are rejected. */
  lemma RegionEdges()
    ensures Contains(Region, SouthWest) && Contains(Region, NorthEast)
    ensures Contains(Region, LatLng(SouthLat, EastLng))
    ensures Contains(Region, LatLng(NorthLat, WestLng))
    ensures Contains(Region, LatLng(SouthLat, -82.5))
    ensures Contains(Region, LatLng(NorthLat, -82.5))
    ensures Contains(Region, LatLng(29.65, WestLng))
    ensures Contains(Region, LatLng(29.65, EastLng))
    ensures Contains(Region, LatLng(29.582699999999999107558323885314166545867919921875, -82.5))
    ensures Contains(Region, LatLng(29.65, -82.2811999999999983401721692644059658050537109375))
    ensures !Contains(Region, LatLng(29.5826, -82.5))
    ensures !Contains(Region, LatLng(29.7076, -82.5))
    ensures !Contains(Region, LatLng(29.65, -82.6528))
    ensures !Contains(Region, LatLng(29.65, -82.2811))
  {
    RegionCorners();
  }
}
