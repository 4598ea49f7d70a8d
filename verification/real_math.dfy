/** Real-number stand-ins for the floating-point library calls of the original.
    `sqrt`, `sin` and `cos` are not computable in Dafny, so every member that
    needs them takes an `Ops` bundle of functions; the lemmas assume only the
    laws collected in `Lawful`, never a particular implementation. */
module RealMath {
  import opened Vectors

  /** `std::f64::consts::PI` as a real. It also stands for `std::f32::consts::PI`,
      which rounds to 3.14159274; the rounding is not modelled. */
  const Pi: real := 3.141592653589793

  datatype Ops = Ops(sqrt: real -> real, sin: real -> real, cos: real -> real)

  /** The square root of a non-negative real is non-negative, squares back,
      and is zero only at zero. */
  ghost predicate SqrtLaw(ops: Ops)
  {
    && (forall x :: 0.0 <= x ==> 0.0 <= ops.sqrt(x) && ops.sqrt(x) * ops.sqrt(x) == x)
    && ops.sqrt(0.0) == 0.0
  }

  /** The Pythagorean identity and the values at 0. */
  ghost predicate TrigLaw(ops: Ops)
  {
    && (forall t :: ops.sin(t) * ops.sin(t) + ops.cos(t) * ops.cos(t) == 1.0)
    && ops.sin(0.0) == 0.0 && ops.cos(0.0) == 1.0
  }

  /** A full turn of the rational `Pi` brings sine and cosine back to their
      values at 0. True sine and cosine only do so for the ideal π, so only the
      lemma about the closing point of the terminator strip asks for this. */
  ghost predicate FullTurnLaw(ops: Ops)
  {
    ops.sin(2.0 * Pi) == 0.0 && ops.cos(2.0 * Pi) == 1.0
  }

  ghost predicate Lawful(ops: Ops)
  {
    SqrtLaw(ops) && TrigLaw(ops)
  }

  /** `abs` on floats. */
  function Abs(r: real): real
  {
    if r < 0.0 then -r else r
  }

  /** `f64::to_radians`. */
  function Radians(degrees: real): real
  {
    degrees * Pi / 180.0
  }

  /** `Vec3::length`: the square root of the squared length. */
  function Length(ops: Ops, v: Vec3): real
  {
    ops.sqrt(NormSq(v))
  }

  /** `Vec3::normalize`. The zero vector maps to itself here (the original
      produces NaN components; see the README). */
  function Normalize(ops: Ops, v: Vec3): Vec3
  {
    var len := Length(ops, v);
    if len == 0.0 then Zero else Scale(v, 1.0 / len)
  }

  /** A non-negative root of x is THE square root of x. */
  lemma SqrtUnique(ops: Ops, x: real, s: real)
    requires SqrtLaw(ops)
    requires 0.0 <= s && s * s == x
    ensures ops.sqrt(x) == s
  {
    var q := ops.sqrt(x);
    assert 0.0 <= q && q * q == x;
    if q < s {
      MulStrictMono(q, s);
    } else if s < q {
      MulStrictMono(s, q);
    }
  }

  /** Comparing a length with a bound is comparing squares. */
  lemma SqrtLessIff(ops: Ops, x: real, r: real)
    requires SqrtLaw(ops)
    requires 0.0 <= x && 0.0 <= r
    ensures ops.sqrt(x) < r <==> x < r * r
  {
    var q := ops.sqrt(x);
    assert 0.0 <= q && q * q == x;
    if q < r {
      MulStrictMono(q, r);
      assert x < r * r;
    } else {
      MulMono(r, q);
      assert !(x < r * r);
    }
  }

  lemma SqrtGreaterIff(ops: Ops, x: real, r: real)
    requires SqrtLaw(ops)
    requires 0.0 <= x && 0.0 <= r
    ensures ops.sqrt(x) > r <==> x > r * r
  {
    var q := ops.sqrt(x);
    assert 0.0 <= q && q * q == x;
    if q > r {
      MulStrictMono(r, q);
      assert x > r * r;
    } else {
      MulMono(q, r);
      assert !(x > r * r);
    }
  }

  lemma MulMono(a: real, b: real)
    requires 0.0 <= a <= b
    ensures a * a <= b * b
  {
    if a < b {
      MulStrictMono(a, b);
    }
  }

  lemma MulStrictMono(a: real, b: real)
    requires 0.0 <= a < b
    ensures a * a < b * b
  {
    assert b * b - a * a == (b - a) * (b + a);
    PositiveProduct(b - a, b + a);
  }

  lemma LengthFacts(ops: Ops, v: Vec3)
    requires SqrtLaw(ops)
    ensures 0.0 <= Length(ops, v)
    ensures Length(ops, v) * Length(ops, v) == NormSq(v)
    ensures v == Zero ==> Length(ops, v) == 0.0
    ensures Length(ops, v) > 0.0 ==> NormSq(v) > 0.0
  {
    var n := NormSq(v);
    NormSqNonNegative(v);
    SqrtOf(ops, n);
    if n == 0.0 {
      assert Length(ops, v) == ops.sqrt(0.0);
    }
  }

  lemma SqrtOf(ops: Ops, x: real)
    requires SqrtLaw(ops)
    requires 0.0 <= x
    ensures 0.0 <= ops.sqrt(x) && ops.sqrt(x) * ops.sqrt(x) == x
  {
  }

  /** Normalizing a vector of positive length yields a unit vector pointing the same way. */
  lemma NormalizeUnit(ops: Ops, v: Vec3)
    requires SqrtLaw(ops)
    requires NormSq(v) > 0.0
    ensures NormSq(Normalize(ops, v)) == 1.0
    ensures Normalize(ops, v) == Scale(v, 1.0 / Length(ops, v))
  {
    LengthFacts(ops, v);
    var len := Length(ops, v);
    assert len != 0.0;
    var k := 1.0 / len;
    NormSqScale(v, k);
    assert k * len == 1.0;
    assert k * k * NormSq(v) == k * k * (len * len) == (k * len) * (k * len);
  }

  /** Normalizing a vector whose length is known divides by that length. */
  lemma NormalizeBy(ops: Ops, v: Vec3, len: real)
    requires Length(ops, v) == len && len > 0.0
    ensures Normalize(ops, v) == Scale(v, 1.0 / len)
  {
  }

  /** Normalizing scales by a non-negative factor. */
  lemma NormalizeScales(ops: Ops, v: Vec3) returns (k: real)
    requires SqrtLaw(ops)
    ensures 0.0 <= k && Normalize(ops, v) == Scale(v, k)
  {
    LengthFacts(ops, v);
    if Length(ops, v) == 0.0 {
      k := 0.0;
      assert Normalize(ops, v) == Zero == Scale(v, 0.0);
    } else {
      k := 1.0 / Length(ops, v);
    }
  }

  lemma SquareNonNegative(r: real)
    ensures r * r >= 0.0
  {
  }

  lemma SquareAtMostOne(s: real)
    requires s * s <= 1.0
    ensures -1.0 <= s <= 1.0
  {
    if s > 1.0 {
      MulStrictMono(1.0, s);
    } else if s < -1.0 {
      MulStrictMono(1.0, -s);
    }
  }

  /** The sine and cosine of any angle lie in [-1, 1]. */
  lemma SinCosBounded(ops: Ops, t: real)
    requires TrigLaw(ops)
    ensures -1.0 <= ops.sin(t) <= 1.0
    ensures -1.0 <= ops.cos(t) <= 1.0
  {
    var s, c := ops.sin(t), ops.cos(t);
    assert s * s + c * c == 1.0;
    SquareNonNegative(s);
    SquareNonNegative(c);
    assert s * s <= 1.0 && c * c <= 1.0;
    SquareAtMostOne(s);
    SquareAtMostOne(c);
  }
}
