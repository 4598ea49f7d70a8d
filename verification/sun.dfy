/** The Sun: its direction from the Earth's centre computed from the date and
    the UTC time of day, and the terminator (the day/night boundary) drawn as
    a closed line on the Earth's surface perpendicular to that direction.
    Calendar conversion is not modelled: the day of the year and the clock
    fields are inputs. */
module Sun {
  import opened Vectors
  import opened RealMath

  // ---------------------------------------------------------------------------
  // Sun direction
  // ---------------------------------------------------------------------------

  /** The fields of a UTC instant the computation reads. */
  datatype SolarTime = SolarTime(dayOfYear: nat, hour: nat, minute: nat, second: nat)

  /** The ranges chrono gives these fields. */
  predicate ValidTime(t: SolarTime)
  {
    1 <= t.dayOfYear <= 366 && t.hour < 24 && t.minute < 60 && t.second < 60
  }

  /** The Earth's axial tilt, in degrees. */
  const AxialTilt: real := 23.44

  /** The declination in degrees: the tilt times the sine of the day's place
      in a 365-day cycle offset by 284 days. It never exceeds the tilt. */
  function DeclinationDegrees(ops: Ops, dayOfYear: nat): (d: real)
    ensures TrigLaw(ops) ==> -AxialTilt <= d <= AxialTilt
  {
    var season := Radians(360.0 * (284.0 + dayOfYear as real) / 365.0);
    TiltedSineBounded(ops, season);
    AxialTilt * ops.sin(season)
  }

  /** The tilt times any sine lies within plus or minus the tilt. */
  lemma TiltedSineBounded(ops: Ops, angle: real)
    ensures TrigLaw(ops) ==> -AxialTilt <= AxialTilt * ops.sin(angle) <= AxialTilt
  {
    if TrigLaw(ops) {
      SinCosBounded(ops, angle);
    }
  }

  /** The fractional hours since midnight: in [0, 24) for a valid clock,
      and exactly 12 only at 12:00:00. */
  function HoursSinceMidnight(t: SolarTime): (hours: real)
    ensures ValidTime(t) ==> 0.0 <= hours < 24.0
    ensures ValidTime(t) ==> (hours == 12.0 <==> t.hour == 12 && t.minute == 0 && t.second == 0)
  {
    ClockHours(t.hour, t.minute, t.second);
    t.hour as real + t.minute as real / 60.0 + t.second as real / 3600.0
  }

  /** Hours, minutes and seconds within their ranges give fractional hours
      in [0, 24), equal to 12 only for 12:00:00. */
  lemma ClockHours(hour: nat, minute: nat, second: nat)
    ensures var hours := hour as real + minute as real / 60.0 + second as real / 3600.0;
            hour < 24 && minute < 60 && second < 60 ==>
              0.0 <= hours < 24.0
              && (hours == 12.0 <==> hour == 12 && minute == 0 && second == 0)
  {
    var frac := minute as real / 60.0 + second as real / 3600.0;
    if hour < 24 && minute < 60 && second < 60 {
      assert 0.0 <= frac < 1.0;
      if hour as real + frac == 12.0 {
        assert hour == 12;
        assert frac == 0.0;
      }
    }
  }

  /** The hour angle in degrees: 15 degrees an hour, zero at 12:00 UTC.
      A valid clock gives an angle in [-180, 180), zero exactly at noon. */
  function HourAngleDegrees(t: SolarTime): (h: real)
    ensures ValidTime(t) ==> -180.0 <= h < 180.0
    ensures ValidTime(t) ==> (h == 0.0 <==> t.hour == 12 && t.minute == 0 && t.second == 0)
  {
    (HoursSinceMidnight(t) - 12.0) * 15.0
  }

  /** The direction before normalisation: declination as latitude, hour angle as longitude. */
  function RawSunDirection(ops: Ops, t: SolarTime): Vec3
  {
    var dec := Radians(DeclinationDegrees(ops, t.dayOfYear));
    var ha := Radians(HourAngleDegrees(t));
    Vec3(ops.cos(dec) * ops.sin(ha), ops.sin(dec), ops.cos(dec) * ops.cos(ha))
  }

  /** `calculate_sun_direction`. For lawful functions the result is a unit
      vector whose height is the sine of the declination, and at 12:00 UTC
      it lies over the Greenwich meridian (no east-west component). */
  function CalculateSunDirection(ops: Ops, t: SolarTime): (d: Vec3)
    ensures Lawful(ops) ==> NormSq(d) == 1.0 && d == RawSunDirection(ops, t)
    ensures Lawful(ops) ==> d.y == ops.sin(Radians(DeclinationDegrees(ops, t.dayOfYear)))
    ensures Lawful(ops) && ValidTime(t) && t.hour == 12 && t.minute == 0 && t.second == 0 ==> d.x == 0.0
  {
    RawSunDirectionIsUnit(ops, t);
    Normalize(ops, RawSunDirection(ops, t))
  }

  /** The raw direction is already a unit vector, so normalising returns it unchanged. */
  lemma RawSunDirectionIsUnit(ops: Ops, t: SolarTime)
    ensures Lawful(ops) ==> NormSq(RawSunDirection(ops, t)) == 1.0
    ensures Lawful(ops) ==> Normalize(ops, RawSunDirection(ops, t)) == RawSunDirection(ops, t)
  {
    if Lawful(ops) {
      var dec := Radians(DeclinationDegrees(ops, t.dayOfYear));
      var ha := Radians(HourAngleDegrees(t));
      var cd, sd, ch, sh := ops.cos(dec), ops.sin(dec), ops.cos(ha), ops.sin(ha);
      assert sd * sd + cd * cd == 1.0;
      assert sh * sh + ch * ch == 1.0;
      var raw := RawSunDirection(ops, t);
      assert NormSq(raw) == cd * cd * (sh * sh + ch * ch) + sd * sd;
      assert NormSq(raw) == 1.0;
      SqrtUnique(ops, 1.0, 1.0);
      NormalizeBy(ops, raw, 1.0);
    }
  }

  // ---------------------------------------------------------------------------
  // Terminator line
  // ---------------------------------------------------------------------------

  const UnitX: Vec3 := Vec3(1.0, 0.0, 0.0)
  const UnitY: Vec3 := Vec3(0.0, 1.0, 0.0)

  /** The reference axis for the circle's basis: Y, unless the Sun is within
      about 25 degrees of it, then X. */
  function ReferenceAxis(sun: Vec3): (r: Vec3)
    ensures r == UnitX || r == UnitY
  {
    if Abs(Dot(sun, UnitY)) > 0.9 then UnitX else UnitY
  }

  /** The two in-plane vectors: u across the reference axis, v across u. */
  function TerminatorBasis(ops: Ops, sun: Vec3): (Vec3, Vec3)
  {
    var u := Normalize(ops, Cross(sun, ReferenceAxis(sun)));
    (u, Normalize(ops, Cross(sun, u)))
  }

  /** The angle of point i of a line of `resolution` segments. */
  function TerminatorAngle(i: nat, resolution: nat): real
    requires resolution > 0
  {
    (i as real / resolution as real) * 2.0 * Pi
  }

  /** The point at a given angle on the circle of the given radius. */
  function TerminatorPoint(ops: Ops, radius: real, sun: Vec3, angle: real): Vec3
  {
    var (u, v) := TerminatorBasis(ops, sun);
    Scale(Add(Scale(u, ops.cos(angle)), Scale(v, ops.sin(angle))), radius)
  }

  /** `create_terminator_line_mesh`: a line strip of `resolution + 1` points
      sweeping the full turn. For a unit Sun direction every point lies on
      the Earth's surface in the plane through the centre perpendicular to
      the Sun. */
  method CreateTerminatorLineMesh(ops: Ops, earthRadius: real, sun: Vec3, resolution: nat)
    returns (positions: seq<Vec3>)
    requires resolution > 0
    ensures |positions| == resolution + 1
    ensures forall i :: 0 <= i <= resolution ==>
      positions[i] == TerminatorPoint(ops, earthRadius, sun, TerminatorAngle(i, resolution))
    ensures Lawful(ops) && NormSq(sun) == 1.0 ==>
      forall i :: 0 <= i <= resolution ==>
        Dot(positions[i], sun) == 0.0 && NormSq(positions[i]) == earthRadius * earthRadius
  {
    var (u, v) := TerminatorBasis(ops, sun);
    positions := [];
    var i := 0;
    while i <= resolution
      invariant 0 <= i <= resolution + 1
      invariant |positions| == i
      invariant forall k :: 0 <= k < i ==>
        positions[k] == TerminatorPoint(ops, earthRadius, sun, TerminatorAngle(k, resolution))
    {
      var angle := (i as real / resolution as real) * 2.0 * Pi;
      var pointOnCircle := Add(Scale(u, ops.cos(angle)), Scale(v, ops.sin(angle)));
      positions := positions + [Scale(pointOnCircle, earthRadius)];
      i := i + 1;
    }
    if Lawful(ops) && NormSq(sun) == 1.0 {
      forall k | 0 <= k <= resolution
        ensures Dot(positions[k], sun) == 0.0 && NormSq(positions[k]) == earthRadius * earthRadius
      {
        TerminatorOnGreatCircle(ops, earthRadius, sun, TerminatorAngle(k, resolution));
      }
    }
  }

  /** The sweep starts at angle 0, ends at a full turn, and moves forward by
      equal steps. */
  lemma TerminatorAngles(resolution: nat, i: nat)
    requires resolution > 0 && i < resolution
    ensures TerminatorAngle(0, resolution) == 0.0
    ensures TerminatorAngle(resolution, resolution) == 2.0 * Pi
    ensures TerminatorAngle(i + 1, resolution) - TerminatorAngle(i, resolution) == 2.0 * Pi / resolution as real
  {
    var r := resolution as real;
    assert (i + 1) as real / r - i as real / r == 1.0 / r;
  }

  /** The line closes: its first and last points coincide, for sine and cosine
      that return to their starting values after a full turn of `Pi`. */
  lemma TerminatorClosed(ops: Ops, radius: real, sun: Vec3, resolution: nat)
    requires TrigLaw(ops) && FullTurnLaw(ops) && resolution > 0
    ensures TerminatorPoint(ops, radius, sun, TerminatorAngle(0, resolution))
         == TerminatorPoint(ops, radius, sun, TerminatorAngle(resolution, resolution))
  {
    TerminatorAngles(resolution, 0);
  }

  /** For a unit direction the squared length along the reference axis is at
      most 0.81 when Y is chosen, and below 0.19 along X when X is chosen, so
      the direction is never parallel to its reference axis. */
  lemma ReferenceNotParallel(sun: Vec3)
    requires NormSq(sun) == 1.0
    ensures NormSq(Cross(sun, ReferenceAxis(sun))) > 0.0
  {
    var x, y, z := sun.x, sun.y, sun.z;
    ComponentBounds(x, y, z);
    if Abs(Dot(sun, UnitY)) > 0.9 {
      assert Cross(sun, UnitX) == Vec3(0.0, z, -y);
      assert NormSq(Cross(sun, UnitX)) == 1.0 - x * x;
    } else {
      assert Cross(sun, UnitY) == Vec3(-z, 0.0, x);
      assert NormSq(Cross(sun, UnitY)) == 1.0 - y * y;
    }
  }

  /** For a unit vector (x, y, z): if |y| > 0.9 then x² < 0.19, else y² <= 0.81. */
  lemma ComponentBounds(x: real, y: real, z: real)
    requires x * x + y * y + z * z == 1.0
    ensures Abs(y) > 0.9 ==> x * x < 0.19
    ensures Abs(y) <= 0.9 ==> y * y <= 0.81
  {
    var ay := Abs(y);
    assert ay * ay == y * y;
    if ay > 0.9 {
      MulStrictMono(0.9, ay);
      SquareNonNegative(z);
    } else {
      MulMono(ay, 0.9);
    }
  }

  /** u and v form an orthonormal basis of the plane perpendicular to a unit Sun direction. */
  lemma BasisOrthonormal(ops: Ops, sun: Vec3)
    requires SqrtLaw(ops) && NormSq(sun) == 1.0
    ensures var (u, v) := TerminatorBasis(ops, sun);
      && NormSq(u) == 1.0 && NormSq(v) == 1.0
      && Dot(u, v) == 0.0 && Dot(u, sun) == 0.0 && Dot(v, sun) == 0.0
  {
    var w := Cross(sun, ReferenceAxis(sun));
    ReferenceNotParallel(sun);
    NormalizeUnit(ops, w);
    var u := Normalize(ops, w);
    var k := 1.0 / Length(ops, w);
    assert u == Scale(w, k);
    CrossOrthogonal(sun, ReferenceAxis(sun));
    DotScaleLeft(w, sun, k);
    assert Dot(u, sun) == 0.0;
    var w2 := Cross(sun, u);
    CrossNormSq(sun, u);
    assert Dot(sun, u) == 0.0;
    assert NormSq(w2) == 1.0;
    NormalizeUnit(ops, w2);
    var v := Normalize(ops, w2);
    var k2 := 1.0 / Length(ops, w2);
    assert v == Scale(w2, k2);
    CrossOrthogonal(sun, u);
    DotScaleLeft(w2, sun, k2);
    DotScaleLeft(w2, u, k2);
    assert Dot(v, u) == 0.0;
    assert Dot(u, v) == Dot(v, u);
  }

  lemma DotScaleLeft(a: Vec3, b: Vec3, s: real)
    ensures Dot(Scale(a, s), b) == s * Dot(a, b)
  {
  }

  lemma NormSqAdd(a: Vec3, b: Vec3)
    ensures NormSq(Add(a, b)) == NormSq(a) + 2.0 * Dot(a, b) + NormSq(b)
  {
  }

  /** A combination c·u + s·v of orthonormal u, v perpendicular to d is
      perpendicular to d and has squared length c² + s². */
  lemma CircleCombination(u: Vec3, v: Vec3, d: Vec3, c: real, s: real)
    requires NormSq(u) == 1.0 && NormSq(v) == 1.0 && Dot(u, v) == 0.0
    requires Dot(u, d) == 0.0 && Dot(v, d) == 0.0
    ensures Dot(Add(Scale(u, c), Scale(v, s)), d) == 0.0
    ensures NormSq(Add(Scale(u, c), Scale(v, s))) == c * c + s * s
  {
    DotScaleLeft(u, d, c);
    DotScaleLeft(v, d, s);
    NormSqAdd(Scale(u, c), Scale(v, s));
    NormSqScale(u, c);
    NormSqScale(v, s);
    DotScale(u, v, c, s);
  }

  /** Every terminator point of a unit Sun direction is on the Earth's
      surface and perpendicular to the Sun: on the day/night great circle. */
  lemma TerminatorOnGreatCircle(ops: Ops, radius: real, sun: Vec3, angle: real)
    requires Lawful(ops) && NormSq(sun) == 1.0
    ensures Dot(TerminatorPoint(ops, radius, sun, angle), sun) == 0.0
    ensures NormSq(TerminatorPoint(ops, radius, sun, angle)) == radius * radius
  {
    var (u, v) := TerminatorBasis(ops, sun);
    BasisOrthonormal(ops, sun);
    var c, s := ops.cos(angle), ops.sin(angle);
    var q := Add(Scale(u, c), Scale(v, s));
    CircleCombination(u, v, sun, c, s);
    assert c * c + s * s == 1.0;
    DotScaleLeft(q, sun, radius);
    NormSqScale(q, radius);
  }
}
