/**
 * GeoUtils: the distance-to-score mapping, the coordinate range checks, and
 * the sentinel distance returned when a coordinate is missing.
 */
module GeoUtils {
  import opened Wrappers
  import opened Numbers

  /** `Double.MAX_VALUE`, exactly: (2 - 2^-52) * 2^1023. */
  const MAX_DOUBLE: real := 179769313486231570814527423731704356798070567525844996598917476803157260780028538760589558632766878171540458953514382464234321326889464182768467546703537516986049910576551282076245490090389328944075868508455133942304583236903222948165808559332123348274797826204144723168738177180919299881250404026184124858368.0

  /** A Java `int`: the type of `serviceRadiusKm` once unboxed. */
  predicate IsInt32(x: int) { -0x8000_0000 <= x < 0x8000_0000 }

  /**
   * The great-circle (haversine) distance in kilometres between two present
   * points, given as latitude, longitude, latitude, longitude.
   */
  type Arc = (real, real, real, real) -> real

  /** `calculateDistance`: the sentinel `Double.MAX_VALUE` when any coordinate is missing. */
  function CalculateDistance(lat1: Option<real>, lon1: Option<real>,
                             lat2: Option<real>, lon2: Option<real>, arc: Arc): (d: real)
    ensures lat1.None? || lon1.None? || lat2.None? || lon2.None? ==> d == MAX_DOUBLE
    ensures lat1.Some? && lon1.Some? && lat2.Some? && lon2.Some? ==>
              d == arc(lat1.value, lon1.value, lat2.value, lon2.value)
  {
    if lat1.None? || lon1.None? || lat2.None? || lon2.None? then MAX_DOUBLE
    else arc(lat1.value, lon1.value, lat2.value, lon2.value)
  }

  /**
   * `calculateDistanceScore`: 0 outside the service radius, 100 within 10 km,
   * and a straight line from 100 at 10 km down to 0 at the radius in between.
   */
  function DistanceScore(distanceKm: real, serviceRadiusKm: int): (s: real)
    ensures 0.0 <= s <= 100.0
    ensures distanceKm > serviceRadiusKm as real ==> s == 0.0
    ensures distanceKm <= 10.0 && distanceKm <= serviceRadiusKm as real ==> s == 100.0
  {
    if distanceKm > serviceRadiusKm as real then 0.0
    else if distanceKm <= 10.0 then 100.0
    else
      // here 10 < distanceKm <= serviceRadiusKm, so the divisor is positive
      var score := 100.0 - ((distanceKm - 10.0) / (serviceRadiusKm as real - 10.0) * 100.0);
      Max(0.0, Min(100.0, score))
  }

  /** The fraction of the 10 km .. radius band that a distance has covered. */
  function BandFraction(distanceKm: real, serviceRadiusKm: int): real
    requires 10.0 < distanceKm <= serviceRadiusKm as real
  {
    (distanceKm - 10.0) / (serviceRadiusKm as real - 10.0)
  }

  lemma BandFractionInUnit(distanceKm: real, serviceRadiusKm: int)
    requires 10.0 < distanceKm <= serviceRadiusKm as real
    ensures 0.0 < BandFraction(distanceKm, serviceRadiusKm) <= 1.0
  {
    var q := BandFraction(distanceKm, serviceRadiusKm);
    var w := serviceRadiusKm as real - 10.0;
    assert q * w == distanceKm - 10.0;
  }

  /**
   * Inside the band the clamp never acts: the score is the line itself, and
   * its divisor `serviceRadiusKm - 10` is strictly positive.
   */
  lemma DistanceScoreInBand(distanceKm: real, serviceRadiusKm: int)
    requires 10.0 < distanceKm <= serviceRadiusKm as real
    ensures serviceRadiusKm - 10 > 0
    ensures DistanceScore(distanceKm, serviceRadiusKm)
              == 100.0 - BandFraction(distanceKm, serviceRadiusKm) * 100.0
    ensures 0.0 <= DistanceScore(distanceKm, serviceRadiusKm) < 100.0
  {
    BandFractionInUnit(distanceKm, serviceRadiusKm);
  }

  /** The line reaches 0 exactly at the radius, when the radius exceeds 10 km. */
  lemma DistanceScoreZeroAtRadius(serviceRadiusKm: int)
    requires serviceRadiusKm > 10
    ensures DistanceScore(serviceRadiusKm as real, serviceRadiusKm) == 0.0
  {
    var w := serviceRadiusKm as real - 10.0;
    assert w / w == 1.0;
  }

  /** A radius below 10 km still scores 0 outside it: the radius test comes first. */
  lemma DistanceScoreRadiusFirst(distanceKm: real, serviceRadiusKm: int)
    requires serviceRadiusKm < 10 && serviceRadiusKm as real < distanceKm <= 10.0
    ensures DistanceScore(distanceKm, serviceRadiusKm) == 0.0
  {
  }

  lemma BandFractionMonotone(d1: real, d2: real, serviceRadiusKm: int)
    requires 10.0 < d1 <= d2 <= serviceRadiusKm as real
    ensures BandFraction(d1, serviceRadiusKm) <= BandFraction(d2, serviceRadiusKm)
  {
    var w := serviceRadiusKm as real - 10.0;
    assert BandFraction(d2, serviceRadiusKm) - BandFraction(d1, serviceRadiusKm) == (d2 - d1) / w;
    assert (d2 - d1) / w >= 0.0;
  }

  /** For a fixed radius, moving further away never raises the score. */
  lemma DistanceScoreAntitone(d1: real, d2: real, serviceRadiusKm: int)
    requires d1 <= d2
    ensures DistanceScore(d2, serviceRadiusKm) <= DistanceScore(d1, serviceRadiusKm)
  {
    var r := serviceRadiusKm as real;
    if 10.0 < d1 && d2 <= r {
      DistanceScoreInBand(d1, serviceRadiusKm);
      DistanceScoreInBand(d2, serviceRadiusKm);
      BandFractionMonotone(d1, d2, serviceRadiusKm);
    } else if d1 <= 10.0 && 10.0 < d2 <= r {
      DistanceScoreInBand(d2, serviceRadiusKm);
    }
  }

  /** A missing coordinate scores 0 for every radius a Java `int` can hold. */
  lemma MissingCoordinateScoresZero(lat1: Option<real>, lon1: Option<real>,
                                    lat2: Option<real>, lon2: Option<real>,
                                    arc: Arc, serviceRadiusKm: int)
    requires lat1.None? || lon1.None? || lat2.None? || lon2.None?
    requires IsInt32(serviceRadiusKm)
    ensures DistanceScore(CalculateDistance(lat1, lon1, lat2, lon2, arc), serviceRadiusKm) == 0.0
  {
  }

  /**
   * `isValidLatitude`: present and within [-90, 90]. An absent value is
   * refused before it is unboxed, and every valid latitude is also a valid
   * longitude.
   */
  predicate IsValidLatitude(latitude: Option<real>)
    ensures latitude.None? ==> !IsValidLatitude(latitude)
    ensures IsValidLatitude(latitude) ==> IsValidLongitude(latitude)
  {
    latitude.Some? && -90.0 <= latitude.value <= 90.0
  }

  /** `isValidLongitude`: present and within [-180, 180]; an absent value is refused before it is unboxed. */
  predicate IsValidLongitude(longitude: Option<real>)
    ensures longitude.None? ==> !IsValidLongitude(longitude)
  {
    longitude.Some? && -180.0 <= longitude.value <= 180.0
  }

  /**
   * Both ranges are closed and symmetric: a coordinate is valid exactly when
   * its mirror is, the poles and the antimeridian included, and nothing
   * beyond them.
   */
  lemma CoordinateRangesSymmetric(v: real)
    ensures IsValidLatitude(Some(v)) <==> IsValidLatitude(Some(-v))
    ensures IsValidLongitude(Some(v)) <==> IsValidLongitude(Some(-v))
    ensures IsValidLatitude(Some(v)) <==> -90.0 <= v <= 90.0
    ensures IsValidLongitude(Some(v)) <==> -180.0 <= v <= 180.0
  {
  }
}
