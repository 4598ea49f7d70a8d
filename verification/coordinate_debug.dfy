/** The fixed change of frame from the inertial TEME frame (X towards the
    vernal equinox, Z towards the north pole) to the scene frame (Y up), and
    the per-axis ranges of a trajectory used to spot a collapsed Y axis. */
module CoordinateDebug {
  import opened Wrappers
  import opened Vectors
  import opened RealMath

  /** `teme_to_bevy`: (x, y, z) maps to (x, z, -y). The name and the debug flag
      only select diagnostic printing, which is not modelled. */
  function TemeToBevy(pos: Vec3, name: string, debug: bool): (r: Vec3)
    ensures r.y == pos.z
  {
    Vec3(pos.x, pos.z, -pos.y)
  }

  /** The inverse frame change, scene to TEME. */
  function BevyToTeme(b: Vec3): Vec3
  {
    Vec3(b.x, -b.z, b.y)
  }

  /** The debug flag and the name never change the result. */
  lemma TemeToBevyIgnoresDebug(pos: Vec3, name1: string, name2: string, debug1: bool, debug2: bool)
    ensures TemeToBevy(pos, name1, debug1) == TemeToBevy(pos, name2, debug2)
  {
  }

  /** The frame change is a bijection with inverse (a, b, c) -> (a, -c, b). */
  lemma FrameRoundTrip(pos: Vec3, b: Vec3, name: string, debug: bool)
    ensures BevyToTeme(TemeToBevy(pos, name, debug)) == pos
    ensures TemeToBevy(BevyToTeme(b), name, debug) == b
  {
  }

  /** It is a proper rotation (a quarter turn about X): it preserves dot
      products (so lengths) and handedness, so scene geometry is inertial geometry. */
  lemma FrameIsRotation(a: Vec3, b: Vec3, name: string, debug: bool)
    ensures Dot(TemeToBevy(a, name, debug), TemeToBevy(b, name, debug)) == Dot(a, b)
    ensures NormSq(TemeToBevy(a, name, debug)) == NormSq(a)
    ensures Cross(TemeToBevy(a, name, debug), TemeToBevy(b, name, debug)) == TemeToBevy(Cross(a, b), name, debug)
  {
  }

  /** An extended real, for folds that start from an infinity. */
  datatype Bound = NegInf | Finite(v: real) | PosInf

  /** `f32::min` on the values a fold can meet (no NaN). */
  function MinB(a: Bound, b: Bound): Bound
  {
    match (a, b)
    case (NegInf, _) => NegInf
    case (_, NegInf) => NegInf
    case (PosInf, _) => b
    case (_, PosInf) => a
    case (Finite(x), Finite(y)) => if x <= y then a else b
  }

  /** `f32::max` on the values a fold can meet (no NaN). */
  function MaxB(a: Bound, b: Bound): Bound
  {
    match (a, b)
    case (PosInf, _) => PosInf
    case (_, PosInf) => PosInf
    case (NegInf, _) => b
    case (_, NegInf) => a
    case (Finite(x), Finite(y)) => if x >= y then a else b
  }

  /** What `analyze_trajectory_coords` prints for a non-empty slice. */
  datatype TrajectoryStats = TrajectoryStats(
    xMin: real, xMax: real,
    yMin: real, yMax: real,
    zMin: real, zMax: real,
    ySpan: real,
    flatWarning: bool)

  /** The span below which the Y range is reported as suspiciously small, in km. */
  const FlatSpan: real := 100.0

  /** m is the least value of coordinate `axis` over points: a lower bound that is attained. */
  ghost predicate IsMin(points: seq<Vec3>, axis: Vec3 -> real, m: real)
  {
    && (forall k :: 0 <= k < |points| ==> m <= axis(points[k]))
    && (exists k :: 0 <= k < |points| && m == axis(points[k]))
  }

  /** m is the greatest value of coordinate `axis` over points. */
  ghost predicate IsMax(points: seq<Vec3>, axis: Vec3 -> real, m: real)
  {
    && (forall k :: 0 <= k < |points| ==> axis(points[k]) <= m)
    && (exists k :: 0 <= k < |points| && m == axis(points[k]))
  }

  function X(p: Vec3): real { p.x }
  function Y(p: Vec3): real { p.y }
  function Z(p: Vec3): real { p.z }

  /** One fold step keeps "least value so far" when the running bound starts at +infinity. */
  lemma MinStep(points: seq<Vec3>, axis: Vec3 -> real, i: nat, acc: Bound)
    requires i < |points|
    requires i == 0 ==> acc == PosInf
    requires i > 0 ==> acc.Finite? && IsMin(points[..i], axis, acc.v)
    ensures MinB(acc, Finite(axis(points[i]))).Finite?
    ensures IsMin(points[..i + 1], axis, MinB(acc, Finite(axis(points[i]))).v)
  {
    var next := MinB(acc, Finite(axis(points[i])));
    assert points[..i + 1][i] == points[i];
    if i > 0 {
      var k :| 0 <= k < i && acc.v == axis(points[..i][k]);
      assert points[..i + 1][k] == points[..i][k];
      var pre := points[..i + 1];
      forall j | 0 <= j < i + 1
        ensures next.v <= axis(pre[j])
      {
        if j < i {
          assert pre[j] == points[..i][j];
        }
      }
    }
  }

  /** One fold step keeps "greatest value so far" when the running bound starts at -infinity. */
  lemma MaxStep(points: seq<Vec3>, axis: Vec3 -> real, i: nat, acc: Bound)
    requires i < |points|
    requires i == 0 ==> acc == NegInf
    requires i > 0 ==> acc.Finite? && IsMax(points[..i], axis, acc.v)
    ensures MaxB(acc, Finite(axis(points[i]))).Finite?
    ensures IsMax(points[..i + 1], axis, MaxB(acc, Finite(axis(points[i]))).v)
  {
    var next := MaxB(acc, Finite(axis(points[i])));
    assert points[..i + 1][i] == points[i];
    if i > 0 {
      var k :| 0 <= k < i && acc.v == axis(points[..i][k]);
      assert points[..i + 1][k] == points[..i][k];
      var pre := points[..i + 1];
      forall j | 0 <= j < i + 1
        ensures axis(pre[j]) <= next.v
      {
        if j < i {
          assert pre[j] == points[..i][j];
        }
      }
    }
  }

  /** One `fold(f32::INFINITY, f32::min)` over one coordinate of a non-empty slice. */
  method FoldMin(points: seq<Vec3>, axis: Vec3 -> real) returns (m: real)
    requires points != []
    ensures IsMin(points, axis, m)
  {
    var acc := PosInf;
    var i := 0;
    while i < |points|
      invariant 0 <= i <= |points|
      invariant i == 0 ==> acc == PosInf
      invariant i > 0 ==> acc.Finite? && IsMin(points[..i], axis, acc.v)
    {
      MinStep(points, axis, i, acc);
      acc := MinB(acc, Finite(axis(points[i])));
      i := i + 1;
    }
    assert points[..|points|] == points;
    m := acc.v;
  }

  /** One `fold(f32::NEG_INFINITY, f32::max)` over one coordinate of a non-empty slice. */
  method FoldMax(points: seq<Vec3>, axis: Vec3 -> real) returns (m: real)
    requires points != []
    ensures IsMax(points, axis, m)
  {
    var acc := NegInf;
    var i := 0;
    while i < |points|
      invariant 0 <= i <= |points|
      invariant i == 0 ==> acc == NegInf
      invariant i > 0 ==> acc.Finite? && IsMax(points[..i], axis, acc.v)
    {
      MaxStep(points, axis, i, acc);
      acc := MaxB(acc, Finite(axis(points[i])));
      i := i + 1;
    }
    assert points[..|points|] == points;
    m := acc.v;
  }

  /** `analyze_trajectory_coords`: nothing for an empty slice; otherwise the
      six folds (from +infinity with `min`, from -infinity with `max`) and the
      flat-Y warning. */
  method AnalyzeTrajectoryCoords(points: seq<Vec3>, name: string) returns (r: Option<TrajectoryStats>)
    ensures points == [] <==> r == None
    ensures r.Some? ==> var s := r.value;
      && IsMin(points, X, s.xMin) && IsMax(points, X, s.xMax)
      && IsMin(points, Y, s.yMin) && IsMax(points, Y, s.yMax)
      && IsMin(points, Z, s.zMin) && IsMax(points, Z, s.zMax)
      && s.xMin <= s.xMax && s.yMin <= s.yMax && s.zMin <= s.zMax
      && s.ySpan == s.yMax - s.yMin
      && (s.flatWarning <==> Abs(s.yMax - s.yMin) < FlatSpan)
  {
    if |points| == 0 {
      return None;
    }
    var xMin := FoldMin(points, X);
    var xMax := FoldMax(points, X);
    var yMin := FoldMin(points, Y);
    var yMax := FoldMax(points, Y);
    var zMin := FoldMin(points, Z);
    var zMax := FoldMax(points, Z);
    MinLeMax(points, X, xMin, xMax);
    MinLeMax(points, Y, yMin, yMax);
    MinLeMax(points, Z, zMin, zMax);
    var span := yMax - yMin;
    r := Some(TrajectoryStats(xMin, xMax, yMin, yMax, zMin, zMax, span, Abs(span) < FlatSpan));
  }

  lemma MinLeMax(points: seq<Vec3>, axis: Vec3 -> real, lo: real, hi: real)
    requires IsMin(points, axis, lo) && IsMax(points, axis, hi)
    ensures lo <= hi
  {
    var k :| 0 <= k < |points| && lo == axis(points[k]);
  }
}
