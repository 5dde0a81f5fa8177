/** The coordinate transform layer and format helpers. The cosine of the
    latitude, `Math.cos(lat * PI / 180)`, is not computed here: callers pass the
    factor `cosLat` in. `Math.sqrt` is never evaluated: a distance comparison
    `sqrt(d2) <= r` is stated on the squared distance, and a division by a length
    takes that length as a parameter together with its defining equation
    (`IsLength`). */
module GameUtils {

  import opened Common
  import opened Text

  /** Metres per degree of latitude (and of longitude at the equator). */
  const MetersPerDegree: real := 111320.0

  datatype LatLngDelta = LatLngDelta(deltaLat: real, deltaLng: real)

  datatype Meters = Meters(metersNorth: real, metersEast: real)

  /** Metres per degree of longitude at a latitude whose cosine is `cosLat`. */
  function MetersPerDegreeLng(cosLat: real): real { MetersPerDegree * cosLat }

  /** `metersToLatLngDelta`: a local east/north displacement as a degree offset.
      The longitude offset is 0 when a degree of longitude has no length. */
  function MetersToLatLngDelta(cosLat: real, moveEast: real, moveNorth: real): (d: LatLngDelta)
    ensures d.deltaLat * MetersPerDegree == moveNorth
    ensures MetersPerDegreeLng(cosLat) == 0.0 ==> d.deltaLng == 0.0
    ensures MetersPerDegreeLng(cosLat) != 0.0 ==> d.deltaLng * MetersPerDegreeLng(cosLat) == moveEast
  {
    var perLng := MetersPerDegreeLng(cosLat);
    LatLngDelta(moveNorth / MetersPerDegree, if perLng == 0.0 then 0.0 else moveEast / perLng)
  }

  /** `latLngToMeters`: a degree offset as local north/east metres. */
  function LatLngToMeters(cosLat: real, deltaLat: real, deltaLng: real): Meters {
    Meters(deltaLat * MetersPerDegree, deltaLng * MetersPerDegreeLng(cosLat))
  }

  /** Converting metres to degrees and back recovers the displacement whenever
      the longitude scale is non-zero. */
  lemma RoundTrip(cosLat: real, east: real, north: real)
    requires cosLat != 0.0
    ensures var d := MetersToLatLngDelta(cosLat, east, north);
            LatLngToMeters(cosLat, d.deltaLat, d.deltaLng) == Meters(north, east)
  {
  }

  /** With a zero longitude scale every eastward move is dropped, and the
      northward part still round-trips. */
  lemma RoundTripAtZeroScale(cosLat: real, east: real, north: real)
    requires MetersPerDegreeLng(cosLat) == 0.0
    ensures var d := MetersToLatLngDelta(cosLat, east, north);
            d.deltaLng == 0.0 && LatLngToMeters(cosLat, d.deltaLat, d.deltaLng) == Meters(north, 0.0)
  {
  }

  /** Both conversions are linear: sums of displacements map to sums of offsets,
      scaling commutes, and the latitude offset ignores the eastward part. */
  lemma Linear(cosLat: real, e1: real, n1: real, e2: real, n2: real, k: real)
    ensures MetersToLatLngDelta(cosLat, 0.0, 0.0) == LatLngDelta(0.0, 0.0)
    ensures LatLngToMeters(cosLat, 0.0, 0.0) == Meters(0.0, 0.0)
    ensures MetersToLatLngDelta(cosLat, e1, n1).deltaLat == MetersToLatLngDelta(cosLat, e2, n1).deltaLat
    ensures var a := MetersToLatLngDelta(cosLat, e1, n1);
            var b := MetersToLatLngDelta(cosLat, e2, n2);
            MetersToLatLngDelta(cosLat, e1 + e2, n1 + n2)
              == LatLngDelta(a.deltaLat + b.deltaLat, a.deltaLng + b.deltaLng)
    ensures var a := MetersToLatLngDelta(cosLat, e1, n1);
            MetersToLatLngDelta(cosLat, k * e1, k * n1) == LatLngDelta(k * a.deltaLat, k * a.deltaLng)
  {
    var perLng := MetersPerDegreeLng(cosLat);
    if perLng != 0.0 {
      DivAdd(e1, e2, perLng);
      DivScale(k, e1, perLng);
    }
    DivAdd(n1, n2, MetersPerDegree);
    DivScale(k, n1, MetersPerDegree);
  }

  lemma DivAdd(a: real, b: real, d: real)
    requires d != 0.0
    ensures (a + b) / d == a / d + b / d
  {
  }

  lemma DivScale(k: real, a: real, d: real)
    requires d != 0.0
    ensures (k * a) / d == k * (a / d)
  {
  }

  /** `calculateDistance` squared: the planar distance from `p1` to `p2`, with the
      longitude scale taken at `p1`'s latitude (`cosLat1`), so it is not symmetric. */
  function DistanceSquared(p1: LatLng, p2: LatLng, cosLat1: real): (d2: real)
    ensures d2 >= 0.0
    ensures p1 == p2 ==> d2 == 0.0
  {
    var m := LatLngToMeters(cosLat1, p2.lat - p1.lat, p2.lng - p1.lng);
    SumOfSquares(m.metersNorth, m.metersEast);
    m.metersNorth * m.metersNorth + m.metersEast * m.metersEast
  }

  /** A sum of two squares is non-negative. */
  lemma SumOfSquares(a: real, b: real)
    ensures a * a + b * b >= 0.0
  {
    if a < 0.0 { assert a * a == (-a) * (-a); }
    if b < 0.0 { assert b * b == (-b) * (-b); }
  }

  /** `calculateDistance(p1, p2) <= radius`: for a non-negative radius this is the
      squared comparison; no distance is at most a negative radius. */
  predicate Within(p1: LatLng, p2: LatLng, cosLat1: real, radius: real) {
    radius >= 0.0 && DistanceSquared(p1, p2, cosLat1) <= radius * radius
  }

  /** `len = Math.sqrt(dx * dx + dy * dy)` by its defining equation: the
      non-negative number whose square is the squared length. */
  predicate IsLength(len: real, dx: real, dy: real) {
    len >= 0.0 && len * len == dx * dx + dy * dy
  }

  /** A square is never negative. */
  lemma NonNegSquare(a: real)
    ensures a * a >= 0.0
  {
    if a < 0.0 { assert a * a == (-a) * (-a); }
  }

  /** A product with a non-zero factor vanishes only when the other factor does. */
  lemma ProductZero(a: real, b: real)
    requires a * b == 0.0 && b != 0.0
    ensures a == 0.0
  {
    assert a == (a * b) / b;
  }

  /** Only zero squares to zero. */
  lemma {:induction false} ZeroSquare(a: real)
    requires a * a == 0.0
    ensures a == 0.0
  {
    if a != 0.0 {
      ProductZero(a, a);
      assert false;
    }
  }

  /** A length is zero exactly for the zero vector. */
  lemma {:induction false} ZeroLength(len: real, dx: real, dy: real)
    requires IsLength(len, dx, dy)
    ensures len == 0.0 <==> dx == 0.0 && dy == 0.0
  {
    NonNegSquare(dx);
    NonNegSquare(dy);
    if len == 0.0 {
      ZeroSquare(dx);
      ZeroSquare(dy);
    } else if dx == 0.0 && dy == 0.0 {
      ZeroSquare(len);
    }
  }

  /** Quotients multiply as the quotient of the products. */
  lemma DivProduct(a: real, b: real, l: real, m: real)
    requires l != 0.0 && m != 0.0
    ensures (a / l) * (b / m) == (a * b) / (l * m)
  {
  }

  /** Dividing a non-zero vector by its length gives a unit vector. */
  lemma {:induction false} UnitAfterDivision(dx: real, dy: real, len: real)
    requires IsLength(len, dx, dy) && len > 0.0
    ensures (dx / len) * (dx / len) + (dy / len) * (dy / len) == 1.0
  {
    var l2 := len * len;
    if l2 == 0.0 {
      ZeroSquare(len);
      assert false;
    }
    DivProduct(dx, dx, len, len);
    DivProduct(dy, dy, len, len);
    DivAdd(dx * dx, dy * dy, l2);
    assert (dx * dx + dy * dy) / l2 == l2 / l2;
  }

  /** `normalizeDirection`: the zero vector stays zero; any other vector is
      divided by its length, keeping its direction and getting magnitude 1. */
  function NormalizeDirection(dx: real, dy: real, len: real): (v: Vec)
    requires IsLength(len, dx, dy)
    ensures (dx == 0.0 && dy == 0.0) <==> v == Vec(0.0, 0.0)
    ensures len > 0.0 ==> v.x * len == dx && v.y * len == dy
    ensures len > 0.0 ==> v.x * v.x + v.y * v.y == 1.0
  {
    ZeroLength(len, dx, dy);
    if len > 0.0 then
      UnitAfterDivision(dx, dy, len);
      Vec(dx / len, dy / len)
    else Vec(0.0, 0.0)
  }

  /** JavaScript `a % b` for a positive divisor: the remainder takes the sign of `a`. */
  function JsRem(a: int, b: int): (r: int)
    requires b > 0
    ensures a >= 0 ==> r == a % b
    ensures a < 0 ==> r == -((-a) % b)
  {
    if a >= 0 then a % b else -((-a) % b)
  }

  /** A clock field: the integer's decimal form, zero-padded to two characters. */
  function Field(i: int): string {
    PadStart(IntToString(i), 2, '0')
  }

  /** `formatTime`: minutes and seconds, each padded to two digits, joined by ':'.
      Minutes are `Math.floor(seconds / 60)`; seconds are `seconds % 60`. */
  function FormatTime(seconds: int): (r: string)
    ensures seconds >= 0 ==> 5 <= |r| && r[|r| - 3] == ':'
    ensures 0 <= seconds < 6000 ==> |r| == 5
  {
    var mins := Field(seconds / 60);
    var secs := Field(JsRem(seconds, 60));
    ClockFieldWidths(seconds);
    if seconds >= 0 then JoinShape(mins, secs); mins + ":" + secs
    else mins + ":" + secs
  }

  /** Where the colon sits when the seconds field has two characters. */
  lemma JoinShape(mins: string, secs: string)
    requires |secs| == 2
    ensures var r := mins + ":" + secs;
            && |r| == |mins| + 3 && r[|r| - 3] == ':'
  {
  }

  /** For non-negative seconds the seconds field has two characters, and so does
      the minutes field below 100 minutes. */
  lemma ClockFieldWidths(seconds: int)
    ensures seconds >= 0 ==> |Field(JsRem(seconds, 60))| == 2
    ensures seconds >= 0 ==> |Field(seconds / 60)| >= 2
    ensures 0 <= seconds < 6000 ==> |Field(seconds / 60)| == 2
  {
    if seconds >= 0 {
      var s := seconds % 60;
      ShortDecimal(s);
      if seconds < 6000 {
        var m := seconds / 60;
        assert m < 100;
        ShortDecimal(m);
      }
    }
  }

  /** Numbers below 100 print with at most two digits. */
  lemma ShortDecimal(n: nat)
    requires n < 100
    ensures |NatToString(n)| <= 2
  {
    if n >= 10 {
      assert n / 10 < 10;
    }
  }

  /** Reads "mm:ss" back: digits, a colon, two digits of seconds below 60. */
  function ParseClock(t: string): Option<int> {
    if |t| < 4 || t[|t| - 3] != ':' then None
    else
      var mins := t[..|t| - 3];
      var secs := t[|t| - 2..];
      if !AllDigits(mins) || !AllDigits(secs) || DigitsValue(secs) >= 60 then None
      else Some(DigitsValue(mins) * 60 + DigitsValue(secs))
  }

  /** For a non-negative whole number of seconds the clock text reads back as the
      same number: minutes are the quotient by 60 and seconds the remainder. */
  lemma FormatTimeRoundTrip(seconds: int)
    requires seconds >= 0
    ensures ParseClock(FormatTime(seconds)) == Some(seconds)
  {
    var mins := Field(seconds / 60);
    var secs := Field(seconds % 60);
    PaddedValue(seconds / 60, 2);
    PaddedValue(seconds % 60, 2);
    ClockFieldWidths(seconds);
    ParseJoined(mins, secs);
    assert FormatTime(seconds) == mins + ":" + secs;
  }

  /** Two digit fields joined by a colon parse as minutes and seconds. */
  lemma ParseJoined(mins: string, secs: string)
    requires AllDigits(mins) && AllDigits(secs)
    requires |mins| >= 1 && |secs| == 2 && DigitsValue(secs) < 60
    ensures ParseClock(mins + ":" + secs) == Some(DigitsValue(mins) * 60 + DigitsValue(secs))
  {
    var t := mins + ":" + secs;
    assert t[..|t| - 3] == mins;
    assert t[|t| - 2..] == secs;
    assert t[|t| - 3] == ':';
  }
}
