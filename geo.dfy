/**
 * Great-circle distance between two points given in decimal degrees (the
 * Haversine formula on a sphere of radius 6371 km), with the coordinate
 * domain guard that runs before any trigonometry.
 *
 * The trigonometric library is not modelled: it is a parameter of type
 * `MathLib` whose functions are arbitrary, and the only facts assumed about
 * them are the few collected in `SaneMath`.
 */
module Geo {
  import opened Results

  /** Mean Earth radius used by the formula, in kilometres. */
  const EarthRadiusKm: real := 6371.0

  /** Which domain check rejected the call. */
  datatype GeoError = InvalidLatitude | InvalidLongitude

  /** The floating-point library the formula calls, left abstract. */
  datatype MathLib = MathLib(
    pi: real,
    sin: real -> real,
    cos: real -> real,
    sqrt: real -> real,
    atan2: (real, real) -> real)

  /**
   * The facts assumed about the library. The proofs use the values at 0 and
   * 1; `pi > 0` is there so that `Radians` converts degrees to radians.
   */
  predicate SaneMath(m: MathLib)
  {
    && m.pi > 0.0
    && m.sin(0.0) == 0.0
    && m.sqrt(0.0) == 0.0
    && m.sqrt(1.0) == 1.0
    && m.atan2(0.0, 1.0) == 0.0
  }

  /** Inclusive latitude domain, in degrees. */
  predicate ValidLatitude(lat: real)
  {
    -90.0 <= lat <= 90.0
  }

  /** Inclusive longitude domain, in degrees. */
  predicate ValidLongitude(lon: real)
  {
    -180.0 <= lon <= 180.0
  }

  /** A coordinate pair that both the stored-address schema and the formula accept. */
  predicate ValidPoint(lat: real, lon: real)
  {
    ValidLatitude(lat) && ValidLongitude(lon)
  }

  /** Degrees to radians. */
  function Radians(m: MathLib, deg: real): real
  {
    deg * m.pi / 180.0
  }

  function Square(x: real): real
  {
    x * x
  }

  /** The haversine of the central angle, built from the halved deltas. */
  function HaversineTerm(m: MathLib, lat1: real, lon1: real, lat2: real, lon2: real): real
  {
    var deltaLat := Radians(m, lat2 - lat1);
    var deltaLon := Radians(m, lon2 - lon1);
    Square(m.sin(deltaLat / 2.0))
      + m.cos(Radians(m, lat1)) * m.cos(Radians(m, lat2)) * Square(m.sin(deltaLon / 2.0))
  }

  /** The central angle between the two points, in radians. */
  function CentralAngle(m: MathLib, lat1: real, lon1: real, lat2: real, lon2: real): real
  {
    var a := HaversineTerm(m, lat1, lon1, lat2, lon2);
    2.0 * m.atan2(m.sqrt(a), m.sqrt(1.0 - a))
  }

  /**
   * The distance in kilometres from (lat1, lon1) to (lat2, lon2). Both
   * latitudes are checked first, then both longitudes; only a call that
   * passes both checks evaluates the formula.
   */
  function Haversine(m: MathLib, lat1: real, lon1: real, lat2: real, lon2: real): (r: Result<real, GeoError>)
    ensures r.Ok? <==> ValidPoint(lat1, lon1) && ValidPoint(lat2, lon2)
    ensures r == Err(InvalidLatitude) <==> !ValidLatitude(lat1) || !ValidLatitude(lat2)
    ensures r == Err(InvalidLongitude) <==>
              ValidLatitude(lat1) && ValidLatitude(lat2) && (!ValidLongitude(lon1) || !ValidLongitude(lon2))
    ensures r.Ok? ==> r.value == EarthRadiusKm * CentralAngle(m, lat1, lon1, lat2, lon2)
  {
    if !(-90.0 <= lat1 <= 90.0) || !(-90.0 <= lat2 <= 90.0) then
      Err(InvalidLatitude)
    else if !(-180.0 <= lon1 <= 180.0) || !(-180.0 <= lon2 <= 180.0) then
      Err(InvalidLongitude)
    else
      Ok(EarthRadiusKm * CentralAngle(m, lat1, lon1, lat2, lon2))
  }

  /** The distance from a point in the domain to itself is exactly zero. */
  lemma SamePointIsZero(m: MathLib, lat: real, lon: real)
    requires SaneMath(m)
    requires ValidPoint(lat, lon)
    ensures Haversine(m, lat, lon, lat, lon) == Ok(0.0)
  {
  }

  /** Examples of the inclusive guard: calls at the ends of both ranges are accepted. */
  lemma DomainBoundsInclusive(m: MathLib)
    ensures Haversine(m, -90.0, -180.0, 90.0, 180.0).Ok?
    ensures Haversine(m, 90.0, 180.0, -90.0, -180.0).Ok?
  {
  }
}
