/**
 * The radius search behind the `/addresses_within_distance` route: validate
 * the query centre and radius, then scan every stored address and keep those
 * whose distance from the centre is at most the radius. An address whose
 * distance cannot be computed is skipped; the scan goes on.
 */
module Search {
  import opened Results
  import Geo

  /** A stored address as the table holds it. */
  datatype Address = Address(id: int, name: string, latitude: real, longitude: real)

  /** Why the whole search was refused. */
  datatype SearchError = InvalidLatitude | InvalidLongitude | InvalidRadius

  /** Whether the scan keeps `a`: its distance is computed and is within the radius. */
  predicate Kept(m: Geo.MathLib, lat: real, lon: real, radiusKm: real, a: Address)
  {
    match Geo.Haversine(m, lat, lon, a.latitude, a.longitude)
    case Ok(dist) => dist <= radiusKm
    case Err(_) => false
  }

  /** The addresses of `cs` that the scan keeps, in their original order. */
  function Filter(m: Geo.MathLib, lat: real, lon: real, radiusKm: real, cs: seq<Address>): seq<Address>
    decreases |cs|
  {
    if cs == [] then []
    else
      var last := cs[|cs| - 1];
      Filter(m, lat, lon, radiusKm, cs[..|cs| - 1]) + (if Kept(m, lat, lon, radiusKm, last) then [last] else [])
  }

  /**
   * The route's body. `addresses` is everything the table holds, in the
   * order the query returns it.
   */
  method AddressesWithinDistance(m: Geo.MathLib, lat: real, lon: real, distanceKm: real, addresses: seq<Address>)
    returns (r: Result<seq<Address>, SearchError>)
    ensures !Geo.ValidLatitude(lat) ==> r == Err(InvalidLatitude)
    ensures Geo.ValidLatitude(lat) && !Geo.ValidLongitude(lon) ==> r == Err(InvalidLongitude)
    ensures Geo.ValidPoint(lat, lon) && distanceKm <= 0.0 ==> r == Err(InvalidRadius)
    ensures Geo.ValidPoint(lat, lon) && distanceKm > 0.0 ==> r == Ok(Filter(m, lat, lon, distanceKm, addresses))
  {
    if !(-90.0 <= lat <= 90.0) {
      return Err(InvalidLatitude);
    }
    if !(-180.0 <= lon <= 180.0) {
      return Err(InvalidLongitude);
    }
    if distanceKm <= 0.0 {
      return Err(InvalidRadius);
    }
    var result: seq<Address> := [];
    for i := 0 to |addresses|
      invariant result == Filter(m, lat, lon, distanceKm, addresses[..i])
    {
      var addr := addresses[i];
      assert addresses[..i + 1][..i] == addresses[..i];
      var dist := Geo.Haversine(m, lat, lon, addr.latitude, addr.longitude);
      if dist.Err? {
        continue;
      }
      if dist.value <= distanceKm {
        result := result + [addr];
      }
    }
    assert addresses[..|addresses|] == addresses;
    return Ok(result);
  }

  /** Filtering a concatenation filters each part. */
  lemma {:induction false} FilterAppend(m: Geo.MathLib, lat: real, lon: real, radiusKm: real, xs: seq<Address>, ys: seq<Address>)
    ensures Filter(m, lat, lon, radiusKm, xs + ys) == Filter(m, lat, lon, radiusKm, xs) + Filter(m, lat, lon, radiusKm, ys)
    decreases |ys|
  {
    if ys == [] {
      assert xs + ys == xs;
    } else {
      var init := ys[..|ys| - 1];
      assert (xs + ys)[..|xs + ys| - 1] == xs + init;
      FilterAppend(m, lat, lon, radiusKm, xs, init);
    }
  }

  /** `idx` picks out `xs` from `ys` at strictly increasing positions. */
  ghost predicate EmbedsAt(xs: seq<Address>, ys: seq<Address>, idx: seq<int>)
  {
    && |idx| == |xs|
    && (forall k :: 0 <= k < |idx| ==> 0 <= idx[k] < |ys| && xs[k] == ys[idx[k]])
    && (forall j, k :: 0 <= j < k < |idx| ==> idx[j] < idx[k])
  }

  /**
   * The result is a subsequence of the candidates: every kept address is an
   * unchanged candidate, and kept addresses keep their relative order.
   */
  lemma {:induction false} FilterIsSubsequence(m: Geo.MathLib, lat: real, lon: real, radiusKm: real, cs: seq<Address>)
    ensures exists idx :: EmbedsAt(Filter(m, lat, lon, radiusKm, cs), cs, idx)
    decreases |cs|
  {
    var f := Filter(m, lat, lon, radiusKm, cs);
    if cs == [] {
      assert EmbedsAt(f, cs, []);
    } else {
      var init := cs[..|cs| - 1];
      var last := cs[|cs| - 1];
      FilterIsSubsequence(m, lat, lon, radiusKm, init);
      var fi := Filter(m, lat, lon, radiusKm, init);
      var idx :| EmbedsAt(fi, init, idx);
      if Kept(m, lat, lon, radiusKm, last) {
        assert f == fi + [last];
        assert EmbedsAt(f, cs, idx + [|cs| - 1]);
      } else {
        assert f == fi;
        assert EmbedsAt(f, cs, idx);
      }
    }
  }

  /** The search never returns more addresses than it was given. */
  lemma FilterLength(m: Geo.MathLib, lat: real, lon: real, radiusKm: real, cs: seq<Address>)
    ensures |Filter(m, lat, lon, radiusKm, cs)| <= |cs|
  {
  }

  /**
   * Each address occurs in the result exactly as often as among the
   * candidates when the scan keeps it, and not at all otherwise.
   */
  lemma {:induction false} FilterMultiplicity(m: Geo.MathLib, lat: real, lon: real, radiusKm: real, cs: seq<Address>, a: Address)
    ensures multiset(Filter(m, lat, lon, radiusKm, cs))[a] ==
              if Kept(m, lat, lon, radiusKm, a) then multiset(cs)[a] else 0
    decreases |cs|
  {
    if cs != [] {
      var init := cs[..|cs| - 1];
      assert cs == init + [cs[|cs| - 1]];
      FilterMultiplicity(m, lat, lon, radiusKm, init, a);
    }
  }

  /** An address is in the result if and only if it is a candidate the scan keeps. */
  lemma FilterMembership(m: Geo.MathLib, lat: real, lon: real, radiusKm: real, cs: seq<Address>, a: Address)
    ensures a in Filter(m, lat, lon, radiusKm, cs) <==> a in cs && Kept(m, lat, lon, radiusKm, a)
  {
  }

  /**
   * With a valid centre, a candidate's distance fails exactly when its own
   * coordinates are out of domain, and it is kept exactly when they are in
   * domain and its distance is at most the radius (a tie is kept).
   */
  lemma KeptIff(m: Geo.MathLib, lat: real, lon: real, radiusKm: real, a: Address)
    requires Geo.ValidPoint(lat, lon)
    ensures Geo.Haversine(m, lat, lon, a.latitude, a.longitude).Err? <==> !Geo.ValidPoint(a.latitude, a.longitude)
    ensures Kept(m, lat, lon, radiusKm, a) <==>
              Geo.ValidPoint(a.latitude, a.longitude)
              && Geo.EarthRadiusKm * Geo.CentralAngle(m, lat, lon, a.latitude, a.longitude) <= radiusKm
  {
  }

  /**
   * A candidate whose distance cannot be computed is dropped without
   * disturbing the rest of the scan.
   */
  lemma SkipsFailedCandidate(m: Geo.MathLib, lat: real, lon: real, radiusKm: real,
                             before: seq<Address>, bad: Address, after: seq<Address>)
    requires Geo.Haversine(m, lat, lon, bad.latitude, bad.longitude).Err?
    ensures Filter(m, lat, lon, radiusKm, before + [bad] + after) ==
              Filter(m, lat, lon, radiusKm, before) + Filter(m, lat, lon, radiusKm, after)
  {
    var upToBad := before + [bad];
    assert upToBad[..|upToBad| - 1] == before;
    assert !Kept(m, lat, lon, radiusKm, bad);
    assert Filter(m, lat, lon, radiusKm, upToBad) == Filter(m, lat, lon, radiusKm, before);
    FilterAppend(m, lat, lon, radiusKm, upToBad, after);
  }

  /** Appending a kept address to the candidates appends it to the result. */
  lemma FilterSnocKept(m: Geo.MathLib, lat: real, lon: real, radiusKm: real, init: seq<Address>, last: Address)
    requires Kept(m, lat, lon, radiusKm, last)
    ensures Filter(m, lat, lon, radiusKm, init + [last]) == Filter(m, lat, lon, radiusKm, init) + [last]
  {
  }

  /** When the scan keeps every candidate, the result is all of them, in order. */
  lemma {:induction false} FilterKeepsAll(m: Geo.MathLib, lat: real, lon: real, radiusKm: real, cs: seq<Address>)
    requires forall a :: a in cs ==> Kept(m, lat, lon, radiusKm, a)
    ensures Filter(m, lat, lon, radiusKm, cs) == cs
    decreases |cs|
  {
    if cs != [] {
      var init, last := cs[..|cs| - 1], cs[|cs| - 1];
      assert cs == init + [last];
      FilterKeepsAll(m, lat, lon, radiusKm, init);
      FilterSnocKept(m, lat, lon, radiusKm, init, last);
    }
  }

  /** When the scan keeps no candidate (an empty table among them), the result is empty. */
  lemma {:induction false} FilterKeepsNone(m: Geo.MathLib, lat: real, lon: real, radiusKm: real, cs: seq<Address>)
    requires forall a :: a in cs ==> !Kept(m, lat, lon, radiusKm, a)
    ensures Filter(m, lat, lon, radiusKm, cs) == []
    decreases |cs|
  {
    if cs != [] {
      FilterKeepsNone(m, lat, lon, radiusKm, cs[..|cs| - 1]);
    }
  }

  /** An address stored exactly at the centre is always found by a search with a positive radius. */
  lemma CentreAddressIsKept(m: Geo.MathLib, lat: real, lon: real, radiusKm: real, a: Address)
    requires Geo.SaneMath(m)
    requires Geo.ValidPoint(lat, lon) && radiusKm > 0.0
    requires a.latitude == lat && a.longitude == lon
    ensures Kept(m, lat, lon, radiusKm, a)
  {
  }
}
