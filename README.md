# Address book: distance guard and radius search

The address book stores named points (id, name, latitude, longitude) and
answers one geometric query: which stored addresses lie within a given number
of kilometres of a centre point. This project models the two pieces that
query is built from and proves their properties.

- `Geo` (geo.dfy) models `haversine_distance`: both latitudes must lie in
  [-90, 90], then both longitudes in [-180, 180], bounds included; only then is
  the Haversine formula evaluated on a sphere of radius 6371 km. A rejected
  call is `Err(InvalidLatitude)` or `Err(InvalidLongitude)`. The trigonometric
  library is a parameter `MathLib` (pi, sin, cos, sqrt, atan2) of arbitrary
  real functions; `SaneMath` lists the facts assumed about them:
  sin 0 = 0, sqrt 0 = 0, sqrt 1 = 1 and atan2(0, 1) = 0, which the proofs
  use, and pi > 0, which no proof needs but which makes `Radians` a
  conversion from degrees to radians.
- `Search` (search.dfy) models the body of `get_addresses_within_distance`:
  it checks the centre latitude, then the centre longitude, then that the
  radius is positive, failing the whole call on the first violation; otherwise
  it walks the stored addresses in a loop, keeps each one whose distance is at
  most the radius, and skips (without failing) each one whose distance
  computation fails. The loop is proved equal to `Filter`, a stable filter over
  the stored addresses, and the lemmas beside it say what that filter keeps.
- `Results` (results.dfy) holds the `Ok`/`Err` outcome used for the source's
  exceptions.

`utils.py` and `main.py` raise `ValueError` with a different message for a
bad latitude and for a bad longitude; the model gives each its own error
constructor.

## Model

| member | source | states |
|---|---|---|
| Geo.Haversine | utils.py:33-54 | The call succeeds iff all four coordinates are in domain (bounds inclusive); it reports the latitude error iff some latitude is out of range, even when a longitude is too, and the longitude error iff both latitudes pass and some longitude fails; a success is 6371 times the central angle 2·atan2(√a, √(1−a)) built from the halved deltas. |
| Geo.SamePointIsZero | utils.py:44-54 | For a point in domain, the distance to itself is exactly 0, given only sin 0 = 0, sqrt 0 = 0, sqrt 1 = 1 and atan2(0, 1) = 0. |
| Geo.DomainBoundsInclusive | utils.py:35-41 | Example instances of the inclusive guard: calls whose coordinates are all at the extreme values -90, 90, -180 and 180 are accepted. |
| Search.AddressesWithinDistance | main.py:267-297 | A centre latitude out of range fails with the latitude error whatever the other inputs; then a centre longitude out of range fails with the longitude error; then a radius ≤ 0 fails with the radius error, whatever the stored addresses; otherwise the call succeeds with exactly `Search.Filter` of the stored addresses, the stable filter that keeps an address when `Search.Kept` holds: its distance is computed and is at most the radius (main.py:285-294). |
| Search.FilterAppend | main.py:282-294 | The scan treats each candidate independently: filtering a concatenation is the concatenation of the filtered parts. |
| Search.FilterIsSubsequence | main.py:281-290 | The result is a subsequence of the candidates: each result element is an unchanged candidate, picked at strictly increasing positions. |
| Search.FilterLength | main.py:281-290 | The result is never longer than the candidate sequence. |
| Search.FilterMultiplicity | main.py:283-290 | Each address occurs in the result exactly as many times as among the candidates if the scan keeps it, and not at all otherwise. |
| Search.FilterMembership | main.py:283-290 | An address is in the result iff it is a candidate whose distance is computed and is at most the radius. |
| Search.KeptIff | main.py:284-294 | With a valid centre, a candidate's distance computation fails iff that candidate's own coordinates are out of domain, and the candidate is kept iff they are in domain and its distance is at most the radius, a tie included. |
| Search.SkipsFailedCandidate | main.py:292-294 | A candidate whose distance fails contributes nothing and does not affect what is kept before or after it. |
| Search.FilterKeepsAll | main.py:281-290 | If every candidate is kept, the result is the whole candidate sequence in its order. |
| Search.FilterKeepsNone | main.py:281-297 | If no candidate is kept, in particular if there are none, the result is empty. |
| Search.CentreAddressIsKept | main.py:284-288 | An address stored exactly at a valid centre is found by every search with a positive radius. |

## Left out

- HTTP routing, the mapping of every validation error to status 500, and the database session lifecycle (main.py:38-66, 69-233, 299-331): transport and resource handling, not logic.
- The database fetch (main.py:278) is the `addresses` parameter; a failing query, which the route would turn into status 500, is not modelled.
- crud.py and models.py: thin wrappers over the ORM and table declarations.
- schemas.py: the coordinate bounds it declares are the `Geo.ValidPoint` predicate; the 10-character name limit is not modelled.
- decorators.py and every logging call: side output only; the decorator re-raises unchanged.
- Floating point: coordinates and distances are exact reals. NaN and infinity are not modelled (a NaN radius passes the `<= 0` check in the source), nor is the math-domain error `sqrt` could raise if rounding pushed the haversine term above 1; `MathLib.sqrt` is total.
- Geo.Haversine: states no numeric property of the distance beyond its formula; non-negativity, symmetry, the half-circumference bound and the Bangalore–Mysore figure depend on real trigonometry, which is a parameter here.
- Search.FilterKeepsAll: the "radius larger than half the circumference keeps everything" case needs a distance bound, so the lemma assumes instead that every candidate is kept.
