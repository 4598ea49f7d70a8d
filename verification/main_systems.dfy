/** The application's own systems: spawning the catalogue, the per-frame
    position update, and the per-frame label placement with its occlusion
    tests. Scene-graph plumbing is replaced by plain sequences: the i-th
    satellite, its translation and its label sit at index i. */
module Tracker {
  import opened Wrappers
  import opened Vectors
  import opened RealMath
  import opened CoordinateDebug
  import opened Satellites
  import opened Scene
  import TleLoader

  // ---------------------------------------------------------------------------
  // Spawning the catalogue
  // ---------------------------------------------------------------------------

  /** At most this many catalogue entries are looked at. */
  const MaxSatellites: nat := 10000

  /** A spawned satellite together with its initial translation and its label. */
  datatype Spawned = Spawned(
    satellite: Satellite,
    translation: Vec3,
    labelName: string,
    labelVisibility: Visibility)

  /** What `SatelliteBundle::new` and the label spawn produce for one entry. */
  function SpawnOne(name: string, elements: Elements, now: Instant, sgp4: Sgp4): (s: Spawned)
    ensures s.satellite.name == s.labelName == name && s.satellite.elements == elements
    ensures s.satellite.useTrajectory && s.labelVisibility == Visible
  {
    var sat := NewSatellite(name, elements, now);
    Spawned(sat, InitialTranslation(sat, now, sgp4), name, Visible)
  }

  /** Entries whose element conversion fails are skipped, the rest spawned in order. */
  function SpawnAll(entries: seq<(string, TleLoader.TleData)>, toElements: TleLoader.TleData -> Option<Elements>,
                    now: Instant, sgp4: Sgp4): (spawned: seq<Spawned>)
    ensures |spawned| <= |entries|
    ensures forall k :: 0 <= k < |spawned| ==> spawned[k].labelVisibility == Visible && spawned[k].satellite.useTrajectory
  {
    if entries == [] then []
    else
      var last := entries[|entries| - 1];
      SpawnAll(entries[..|entries| - 1], toElements, now, sgp4)
        + (match toElements(last.1) case Some(e) => [SpawnOne(last.0, e, now, sgp4)] case None => [])
  }

  /** Never more spawns than entries. */
  lemma {:induction false} SpawnAllLength(entries: seq<(string, TleLoader.TleData)>,
      toElements: TleLoader.TleData -> Option<Elements>, now: Instant, sgp4: Sgp4)
    ensures |SpawnAll(entries, toElements, now, sgp4)| <= |entries|
  {
    if entries != [] {
      SpawnAllLength(entries[..|entries| - 1], toElements, now, sgp4);
    }
  }

  /** Spawning is a filter: a spawn exactly for each entry whose elements convert. */
  lemma {:induction false} SpawnAllMembers(entries: seq<(string, TleLoader.TleData)>,
      toElements: TleLoader.TleData -> Option<Elements>, now: Instant, sgp4: Sgp4, s: Spawned)
    ensures s in SpawnAll(entries, toElements, now, sgp4) <==>
      exists j :: 0 <= j < |entries| && toElements(entries[j].1).Some?
                  && s == SpawnOne(entries[j].0, toElements(entries[j].1).value, now, sgp4)
  {
    if entries != [] {
      var init := entries[..|entries| - 1];
      SpawnAllMembers(init, toElements, now, sgp4, s);
      if s in SpawnAll(entries, toElements, now, sgp4) && s !in SpawnAll(init, toElements, now, sgp4) {
        assert toElements(entries[|entries| - 1].1).Some?;
      }
      if exists j :: 0 <= j < |entries| && toElements(entries[j].1).Some?
                     && s == SpawnOne(entries[j].0, toElements(entries[j].1).value, now, sgp4) {
        var j :| 0 <= j < |entries| && toElements(entries[j].1).Some?
                 && s == SpawnOne(entries[j].0, toElements(entries[j].1).value, now, sgp4);
        if j < |init| {
          assert init[j] == entries[j];
        }
      }
      forall j | 0 <= j < |init|
        ensures init[j] == entries[j]
      {
      }
    }
  }

  /** `load_satellites`: nothing when loading failed; otherwise the first
      `MaxSatellites` entries in the map's iteration order, minus those whose
      element set does not convert. `entries` is that iteration order. */
  method LoadSatellites(loaded: Result<seq<(string, TleLoader.TleData)>>,
      toElements: TleLoader.TleData -> Option<Elements>, now: Instant, sgp4: Sgp4)
    returns (spawned: seq<Spawned>)
    ensures loaded.Err? ==> spawned == []
    ensures loaded.Ok? ==>
      var n := if |loaded.value| < MaxSatellites then |loaded.value| else MaxSatellites;
      spawned == SpawnAll(loaded.value[..n], toElements, now, sgp4)
    ensures |spawned| <= MaxSatellites
  {
    spawned := [];
    if loaded.Err? {
      return;
    }
    var entries := loaded.value;
    var n := if |entries| < MaxSatellites then |entries| else MaxSatellites;
    var i := 0;
    while i < n
      invariant 0 <= i <= n
      invariant spawned == SpawnAll(entries[..i], toElements, now, sgp4)
    {
      var name := entries[i].0;
      var data := entries[i].1;
      assert entries[..i + 1][..i] == entries[..i];
      match toElements(data) {
        case Some(elements) =>
          spawned := spawned + [SpawnOne(name, elements, now, sgp4)];
        case None =>
      }
      i := i + 1;
    }
    SpawnAllLength(entries[..n], toElements, now, sgp4);
  }

  // ---------------------------------------------------------------------------
  // Per-frame position update
  // ---------------------------------------------------------------------------

  /** The process-wide statics of the update system: the clock reading taken
      on the first frame, and how many debug conversions have been granted. */
  datatype TickState = TickState(startTime: Option<Instant>, debugCount: nat)

  const InitialTick: TickState := TickState(None, 0)

  /** Only the first few successful conversions print diagnostics. */
  const DebugConversions: nat := 3

  const TimeAcceleration: real := 1.0

  /** The simulated instant: the start time plus the elapsed seconds, scaled,
      converted to whole nanoseconds by truncation (the value is never negative). */
  function AcceleratedTime(start: Instant, elapsedSeconds: real): (t: Instant)
    requires 0.0 <= elapsedSeconds
    ensures start <= t
    ensures ((t - start) as real) <= elapsedSeconds * TimeAcceleration * 1_000_000_000.0 < ((t - start + 1) as real)
  {
    start + (elapsedSeconds * TimeAcceleration * 1_000_000_000.0).Floor
  }

  function Min(a: int, b: int): int
  {
    if a <= b then a else b
  }

  /** How many of the results are positions. */
  function CountSome(rs: seq<Option<Vec3>>): nat
  {
    if rs == [] then 0 else CountSome(rs[..|rs| - 1]) + (if rs[|rs| - 1].Some? then 1 else 0)
  }

  function CountTrue(bs: seq<bool>): nat
  {
    if bs == [] then 0 else CountTrue(bs[..|bs| - 1]) + (if bs[|bs| - 1] then 1 else 0)
  }

  /** The propagation result of every satellite at one instant. */
  function Positions(sats: seq<Satellite>, time: Instant, sgp4: Sgp4): (rs: seq<Option<Vec3>>)
    ensures |rs| == |sats|
  {
    seq(|sats|, k requires 0 <= k < |sats| => UpdatePosition(sats[k], time, sgp4))
  }

  /** The debug counter after a run of results, starting from `count0`: each
      position bumps it while it is below the cap. */
  function Granted(count0: nat, rs: seq<Option<Vec3>>): nat
  {
    if rs == [] then count0
    else
      var c := Granted(count0, rs[..|rs| - 1]);
      if rs[|rs| - 1].Some? && c < DebugConversions then c + 1 else c
  }

  /** The debug flag handed to each conversion. */
  function Flags(count0: nat, rs: seq<Option<Vec3>>): (fs: seq<bool>)
    ensures |fs| == |rs|
  {
    if rs == [] then []
    else Flags(count0, rs[..|rs| - 1]) + [rs[|rs| - 1].Some? && Granted(count0, rs[..|rs| - 1]) < DebugConversions]
  }

  /** The counter stays put at or above the cap and otherwise counts the
      positions, saturating at the cap. */
  lemma {:induction false} GrantedCount(count0: nat, rs: seq<Option<Vec3>>)
    ensures Granted(count0, rs) == (if count0 >= DebugConversions then count0
                                   else Min(DebugConversions, count0 + CountSome(rs)))
  {
    if rs != [] {
      GrantedCount(count0, rs[..|rs| - 1]);
    }
  }

  /** Exactly the conversions granted by the counter get the flag, and they are
      the first positions while the counter is below the cap. */
  lemma {:induction false} FlagsFacts(count0: nat, rs: seq<Option<Vec3>>)
    ensures CountTrue(Flags(count0, rs)) == Granted(count0, rs) - count0
    ensures Granted(count0, rs) >= count0
    ensures forall k :: 0 <= k < |rs| ==>
      (Flags(count0, rs)[k] <==> rs[k].Some? && count0 + CountSome(rs[..k]) < DebugConversions)
  {
    if rs != [] {
      var init := rs[..|rs| - 1];
      FlagsFacts(count0, init);
      GrantedCount(count0, init);
      var fs := Flags(count0, rs);
      assert fs[..|rs| - 1] == Flags(count0, init);
      forall k | 0 <= k < |rs|
        ensures fs[k] <==> rs[k].Some? && count0 + CountSome(rs[..k]) < DebugConversions
      {
        if k < |rs| - 1 {
          assert fs[k] == Flags(count0, init)[k];
          assert rs[..k] == init[..k];
        } else {
          assert rs[..k] == init;
        }
      }
    }
  }

  /** Where a satellite is drawn after one frame: the scene-frame image of a
      new position, or the old translation when propagation failed. */
  function Placed(r: Option<Vec3>, sat: Satellite, translation: Vec3, debug: bool): Vec3
  {
    if r.Some? then TemeToBevy(r.value, sat.name, debug) else translation
  }

  /** One more result extends the flags by one and bumps the counter at most once. */
  lemma FlagsStep(count0: nat, rs: seq<Option<Vec3>>, i: nat)
    requires i < |rs|
    ensures Flags(count0, rs[..i + 1]) == Flags(count0, rs[..i]) + [rs[i].Some? && Granted(count0, rs[..i]) < DebugConversions]
    ensures Granted(count0, rs[..i + 1]) ==
      (if rs[i].Some? && Granted(count0, rs[..i]) < DebugConversions then Granted(count0, rs[..i]) + 1 else Granted(count0, rs[..i]))
  {
    assert rs[..i + 1][..i] == rs[..i];
  }

  /** `update_satellite_positions` for one frame. `now` is the clock reading,
      used only on the first frame. A satellite whose propagation fails keeps
      its translation; the others get the scene-frame image of the new
      position. The debug flag goes to the first `DebugConversions`
      successful conversions of the whole process. */
  method UpdateSatellitePositions(state: TickState, now: Instant, elapsedSeconds: real,
      sats: seq<Satellite>, translations: seq<Vec3>, sgp4: Sgp4)
    returns (next: TickState, moved: seq<Vec3>, debugFlags: seq<bool>)
    requires |translations| == |sats|
    requires 0.0 <= elapsedSeconds
    ensures next.startTime == (if state.startTime.None? then Some(now) else state.startTime)
    ensures |moved| == |sats| && |debugFlags| == |sats|
    ensures var rs := Positions(sats, AcceleratedTime(next.startTime.value, elapsedSeconds), sgp4);
      && (forall k :: 0 <= k < |sats| ==>
            moved[k] == Placed(rs[k], sats[k], translations[k], debugFlags[k]))
      && debugFlags == Flags(state.debugCount, rs)
      && next.debugCount == Granted(state.debugCount, rs)
  {
    var start := if state.startTime.None? then now else state.startTime.value;
    var time := AcceleratedTime(start, elapsedSeconds);
    ghost var rs := Positions(sats, time, sgp4);
    var count := state.debugCount;
    moved := [];
    debugFlags := [];
    var i := 0;
    while i < |sats|
      invariant 0 <= i <= |sats|
      invariant |moved| == i && |debugFlags| == i
      invariant forall k :: 0 <= k < i ==>
        moved[k] == Placed(rs[k], sats[k], translations[k], debugFlags[k])
      invariant debugFlags == Flags(state.debugCount, rs[..i])
      invariant count == Granted(state.debugCount, rs[..i])
    {
      FlagsStep(state.debugCount, rs, i);
      var position := UpdatePosition(sats[i], time, sgp4);
      assert position == rs[i];
      var debug := position.Some? && count < DebugConversions;
      if debug {
        count := count + 1;
      }
      var m := Placed(position, sats[i], translations[i], debug);
      ghost var moved0, flags0 := moved, debugFlags;
      moved := moved + [m];
      debugFlags := debugFlags + [debug];
      forall k | 0 <= k < i + 1
        ensures moved[k] == Placed(rs[k], sats[k], translations[k], debugFlags[k])
      {
        if k < i {
          assert moved[k] == moved0[k] && debugFlags[k] == flags0[k];
        }
      }
      i := i + 1;
    }
    assert rs[..|sats|] == rs;
    next := TickState(Some(start), count);
  }

  /** The per-frame guarantees in closed form: the counter only grows and caps
      at `DebugConversions`, the flags count its growth, and a flag goes to a
      conversion exactly when fewer than `DebugConversions` were flagged before it. */
  lemma DebugCounterFacts(state: TickState, rs: seq<Option<Vec3>>)
    ensures Granted(state.debugCount, rs) >= state.debugCount
    ensures state.debugCount <= DebugConversions ==> Granted(state.debugCount, rs) <= DebugConversions
    ensures CountTrue(Flags(state.debugCount, rs)) == Granted(state.debugCount, rs) - state.debugCount
    ensures forall k :: 0 <= k < |rs| ==>
      (Flags(state.debugCount, rs)[k] <==> rs[k].Some? && state.debugCount + CountSome(rs[..k]) < DebugConversions)
  {
    FlagsFacts(state.debugCount, rs);
    GrantedCount(state.debugCount, rs);
  }

  // ---------------------------------------------------------------------------
  // Per-frame label placement
  // ---------------------------------------------------------------------------

  /** The radius the occlusion tests use for the Earth, centred at the origin, in km. */
  const EarthRadius: real := 6371.0

  /** The far-side test fires below this cosine ... */
  const FarSideCosine: real := -0.2

  /** ... and only when camera and satellite are both beyond this multiple of the radius. */
  const FarSideMargin: real := 1.2

  /** Labels are drawn at half size. */
  const LabelScale: real := 0.5

  /** What the system does to one label this frame. */
  datatype LabelUpdate = Keep | Hide | Show(translation: Vec3, scale: real)

  /** Which far-side heuristic is applied: the one in the source, or the
      corrected one (see the README's findings). */
  datatype FarSideRule = AsWritten | Corrected

  /** Hidden as being inside the Earth. */
  predicate InsideEarth(ops: Ops, sat: Vec3)
  {
    Length(ops, Sub(Zero, sat)) < EarthRadius
  }

  /** The unit direction from the camera towards the satellite. */
  function RayDirection(ops: Ops, camera: Vec3, sat: Vec3): Vec3
  {
    Normalize(ops, Sub(sat, camera))
  }

  /** Distance along the ray to the point closest to the Earth's centre. */
  function ClosestT(ops: Ops, camera: Vec3, sat: Vec3): real
  {
    Dot(Sub(Zero, camera), RayDirection(ops, camera, sat))
  }

  /** How far the ray passes from the Earth's centre. */
  function ClosestDistance(ops: Ops, camera: Vec3, sat: Vec3): real
  {
    var closest := Add(camera, Scale(RayDirection(ops, camera, sat), ClosestT(ops, camera, sat)));
    Length(ops, Sub(closest, Zero))
  }

  /** Half the chord the Earth cuts from a line passing at distance d from its centre. */
  function HalfChord(ops: Ops, d: real): real
  {
    ops.sqrt(EarthRadius * EarthRadius - d * d)
  }

  lemma HalfChordSquared(ops: Ops, d: real)
    requires SqrtLaw(ops)
    requires 0.0 <= d < EarthRadius
    ensures HalfChord(ops, d) * HalfChord(ops, d) == EarthRadius * EarthRadius - d * d
  {
    MulStrictMono(d, EarthRadius);
    SqrtOf(ops, EarthRadius * EarthRadius - d * d);
  }

  /** Distance along the ray at which it leaves the Earth. */
  function ExitT(ops: Ops, camera: Vec3, sat: Vec3): real
  {
    ClosestT(ops, camera, sat) + HalfChord(ops, ClosestDistance(ops, camera, sat))
  }

  /** Hidden by the ray-sphere test: the line of sight passes through the
      Earth and the satellite lies beyond the point where it leaves it. */
  predicate RayBlocked(ops: Ops, camera: Vec3, sat: Vec3): (blocked: bool)
    ensures SqrtLaw(ops) && blocked ==> NormSq(sat) > EarthRadius * EarthRadius
  {
    RayBlockedOutside(ops, camera, sat);
    && ClosestDistance(ops, camera, sat) < EarthRadius
    && Length(ops, Sub(sat, camera)) > ExitT(ops, camera, sat)
    && ExitT(ops, camera, sat) > 0.0
  }

  /** Hidden by the far-side heuristic. As written it compares the direction
      from the camera TO the Earth with the direction from the Earth to the
      satellite; the corrected rule uses the direction from the Earth to the camera. */
  predicate FarSide(ops: Ops, rule: FarSideRule, camera: Vec3, sat: Vec3): (hidden: bool)
    ensures SqrtLaw(ops) && hidden && rule == AsWritten ==> Dot(camera, sat) > 0.0
    ensures SqrtLaw(ops) && hidden && rule == Corrected ==> Dot(camera, sat) < 0.0
  {
    var cameraDirection := if rule == AsWritten then Sub(Zero, camera) else Sub(camera, Zero);
    FarSideSign(ops, rule, camera, sat);
    && Dot(Normalize(ops, cameraDirection), Normalize(ops, Sub(sat, Zero))) < FarSideCosine
    && Length(ops, Sub(Zero, camera)) > EarthRadius * FarSideMargin
    && Length(ops, Sub(Zero, sat)) > EarthRadius * FarSideMargin
  }

  /** Normalized device coordinates to the centred, Y-up coordinates of the
      2D overlay camera, by way of top-left-origin screen pixels. */
  function LabelTranslation(ndc: Vec3, width: real, height: real): (p: Vec3)
    ensures p == Vec3(ndc.x * width / 2.0, ndc.y * height / 2.0, 0.0)
  {
    var screenX := (ndc.x + 1.0) * 0.5 * width;
    var screenY := (1.0 - ndc.y) * 0.5 * height;
    Vec3(screenX - width * 0.5, height * 0.5 - screenY, 0.0)
  }

  /** The label decision for a satellite that was found, in the order the
      system applies the tests: filtered out, inside the Earth, behind the
      Earth along the line of sight, on the far side, then off the depth
      range. `ndc` is the projection of the point under the satellite, or
      `None` when the camera cannot project it. */
  function LabelDecision(ops: Ops, rule: FarSideRule, satVisibility: Visibility, sat: Vec3,
      camera: Vec3, ndc: Option<Vec3>, width: real, height: real): (u: LabelUpdate)
    ensures u != Keep
    ensures u.Show? ==> u.scale == LabelScale && ndc.Some? && -1.0 <= ndc.value.z <= 1.0
    ensures u.Show? ==> satVisibility != Hidden && !InsideEarth(ops, sat)
    ensures u.Show? ==> !RayBlocked(ops, camera, sat) && !FarSide(ops, rule, camera, sat)
  {
    if satVisibility == Hidden then Hide
    else if InsideEarth(ops, sat) then Hide
    else if RayBlocked(ops, camera, sat) then Hide
    else if FarSide(ops, rule, camera, sat) then Hide
    else match ndc
      case None => Hide
      case Some(n) =>
        if n.z > 1.0 || n.z < -1.0 then Hide
        else Show(LabelTranslation(n, width, height), LabelScale)
  }

  /** A shown label sits at the projected point scaled to the window, at
      half size, and only when every occlusion test let it through. */
  lemma LabelShownIff(ops: Ops, rule: FarSideRule, vis: Visibility, sat: Vec3, camera: Vec3,
      ndc: Option<Vec3>, width: real, height: real, p: Vec3, scale: real)
    ensures LabelDecision(ops, rule, vis, sat, camera, ndc, width, height) == Show(p, scale) <==>
      && vis != Hidden && !InsideEarth(ops, sat) && !RayBlocked(ops, camera, sat) && !FarSide(ops, rule, camera, sat)
      && ndc.Some? && -1.0 <= ndc.value.z <= 1.0
      && p == Vec3(ndc.value.x * width / 2.0, ndc.value.y * height / 2.0, 0.0) && scale == 0.5
  {
  }

  /** A filtered-out satellite's label is hidden whatever the geometry. */
  lemma FilteredHidesLabel(ops: Ops, rule: FarSideRule, sat: Vec3, camera: Vec3,
      ndc: Option<Vec3>, width: real, height: real)
    ensures LabelDecision(ops, rule, Hidden, sat, camera, ndc, width, height) == Hide
  {
  }

  /** The inside-the-Earth test is a test on the squared distance. */
  lemma InsideEarthIff(ops: Ops, sat: Vec3)
    requires SqrtLaw(ops)
    ensures InsideEarth(ops, sat) <==> NormSq(sat) < EarthRadius * EarthRadius
  {
    NormSqNonNegative(Sub(Zero, sat));
    SqrtLessIff(ops, NormSq(Sub(Zero, sat)), EarthRadius);
    assert NormSq(Sub(Zero, sat)) == NormSq(sat);
  }

  /** The camera and window the labels are placed with; the system returns
      early, touching nothing, when any of them is missing. */
  datatype View = View(camera: Vec3, width: real, height: real)

  /** One label's inputs: its satellite's visibility and position, when the
      satellite can be found, and the projection of the point under it. */
  datatype LabelInput = LabelInput(parent: Option<(Visibility, Vec3)>, ndc: Option<Vec3>)

  /** `update_satellite_labels`: every label independently. */
  function UpdateSatelliteLabels(ops: Ops, rule: FarSideRule, view: Option<View>, labels: seq<LabelInput>): (us: seq<LabelUpdate>)
    ensures |us| == |labels|
    ensures view.None? ==> forall k :: 0 <= k < |us| ==> us[k] == Keep
    ensures view.Some? ==>
      forall k :: 0 <= k < |us| && labels[k].parent.Some? && labels[k].parent.value.0 == Hidden ==> us[k] == Hide
    ensures view.Some? ==>
      forall k :: 0 <= k < |us| && labels[k].parent.Some? ==>
        us[k] == LabelDecision(ops, rule, labels[k].parent.value.0, labels[k].parent.value.1,
                               view.value.camera, labels[k].ndc, view.value.width, view.value.height)
    ensures forall k :: 0 <= k < |us| && labels[k].parent.None? ==> us[k] == Keep
  {
    seq(|labels|, k requires 0 <= k < |labels| =>
      match (view, labels[k].parent)
      case (Some(v), Some((vis, sat))) => LabelDecision(ops, rule, vis, sat, v.camera, labels[k].ndc, v.width, v.height)
      case _ => Keep)
  }

  /** Labels are left alone exactly when there is no view or no satellite to follow. */
  lemma LabelsKeptIff(ops: Ops, rule: FarSideRule, view: Option<View>, labels: seq<LabelInput>, k: nat)
    requires k < |labels|
    ensures UpdateSatelliteLabels(ops, rule, view, labels)[k] == Keep <==> view.None? || labels[k].parent.None?
  {
  }

  lemma NonNegativeProduct(a: real, b: real)
    requires 0.0 <= a && 0.0 <= b
    ensures 0.0 <= a * b
  {
  }

  /** Scaling by non-negative factors cannot turn a non-negative dot product negative. */
  lemma ScaledDotNegative(a: Vec3, b: Vec3, s: real, t: real)
    requires 0.0 <= s && 0.0 <= t
    requires Dot(Scale(a, s), Scale(b, t)) < 0.0
    ensures Dot(a, b) < 0.0
  {
    DotScale(a, b, s, t);
    if Dot(a, b) >= 0.0 {
      NonNegativeProduct(s, t);
      NonNegativeProduct(s * t, Dot(a, b));
    }
  }

  /** The far-side cosine test, for any rule, is a sign test on the directions it compares. */
  lemma FarSideCosineSign(ops: Ops, c: Vec3, sat: Vec3)
    requires SqrtLaw(ops)
    requires Dot(Normalize(ops, c), Normalize(ops, Sub(sat, Zero))) < FarSideCosine
    ensures Dot(c, sat) < 0.0
  {
    var k1 := NormalizeScales(ops, c);
    var k2 := NormalizeScales(ops, Sub(sat, Zero));
    ScaledDotNegative(c, Sub(sat, Zero), k1, k2);
  }

  /** The sign the far-side cosine test forces, for either rule. */
  lemma FarSideSign(ops: Ops, rule: FarSideRule, camera: Vec3, sat: Vec3)
    ensures var dir := if rule == AsWritten then Sub(Zero, camera) else Sub(camera, Zero);
      SqrtLaw(ops) && Dot(Normalize(ops, dir), Normalize(ops, Sub(sat, Zero))) < FarSideCosine ==>
        if rule == AsWritten then Dot(camera, sat) > 0.0 else Dot(camera, sat) < 0.0
  {
    var dir := if rule == AsWritten then Sub(Zero, camera) else Sub(camera, Zero);
    if SqrtLaw(ops) && Dot(Normalize(ops, dir), Normalize(ops, Sub(sat, Zero))) < FarSideCosine {
      FarSideCosineSign(ops, dir, sat);
      assert Dot(Sub(Zero, camera), sat) == -Dot(camera, sat);
      assert Sub(camera, Zero) == camera;
    }
  }

  /** The heuristic as written only ever hides satellites on the camera's
      side of the Earth (in the half-space facing the camera). */
  lemma {:induction false} FarSideAsWrittenHidesNearSide(ops: Ops, camera: Vec3, sat: Vec3)
    requires SqrtLaw(ops)
    requires FarSide(ops, AsWritten, camera, sat)
    ensures Dot(camera, sat) > 0.0
  {
    FarSideCosineSign(ops, Sub(Zero, camera), sat);
    assert Dot(Sub(Zero, camera), sat) == -Dot(camera, sat);
  }

  /** The corrected heuristic only ever hides satellites on the far side. */
  lemma {:induction false} FarSideCorrectedHidesFarSide(ops: Ops, camera: Vec3, sat: Vec3)
    requires SqrtLaw(ops)
    requires FarSide(ops, Corrected, camera, sat)
    ensures Dot(camera, sat) < 0.0
  {
    FarSideCosineSign(ops, Sub(camera, Zero), sat);
    assert Sub(camera, Zero) == camera;
  }

  /** The squared distance from the origin of the point `s` along a ray. */
  lemma NormSqAlongRay(c: Vec3, u: Vec3, s: real)
    ensures NormSq(Add(c, Scale(u, s))) == NormSq(c) + 2.0 * s * Dot(c, u) + s * s * NormSq(u)
  {
  }

  /** When the ray-sphere test hides a satellite, the line of sight really does
      cross the Earth's surface strictly between the camera and the satellite:
      the exit point lies on the sphere and before the satellite. */
  lemma {:induction false} RayBlockedExitOnSurface(ops: Ops, camera: Vec3, sat: Vec3)
    requires SqrtLaw(ops)
    requires RayBlocked(ops, camera, sat)
    ensures 0.0 < ExitT(ops, camera, sat) < Length(ops, Sub(sat, camera))
    ensures NormSq(Add(camera, Scale(RayDirection(ops, camera, sat), ExitT(ops, camera, sat))))
            == EarthRadius * EarthRadius
  {
    LengthFacts(ops, Sub(sat, camera));
    ClosestGeometry(ops, camera, sat);
    var u := RayDirection(ops, camera, sat);
    var t := ClosestT(ops, camera, sat);
    var d := ClosestDistance(ops, camera, sat);
    var h := HalfChord(ops, d);
    HalfChordSquared(ops, d);
    var te := ExitT(ops, camera, sat);
    assert te == t + h;
    NormSqAlongRay(camera, u, te);
    ExitAlgebra(NormSq(camera), Dot(camera, u), NormSq(u), t, h, d * d, EarthRadius * EarthRadius);
  }

  /** The three conditions of the ray-sphere test force the satellite outside the Earth. */
  lemma RayBlockedOutside(ops: Ops, camera: Vec3, sat: Vec3)
    ensures (&& SqrtLaw(ops)
             && ClosestDistance(ops, camera, sat) < EarthRadius
             && Length(ops, Sub(sat, camera)) > ExitT(ops, camera, sat)
             && ExitT(ops, camera, sat) > 0.0) ==> NormSq(sat) > EarthRadius * EarthRadius
  {
    if && SqrtLaw(ops)
       && ClosestDistance(ops, camera, sat) < EarthRadius
       && Length(ops, Sub(sat, camera)) > ExitT(ops, camera, sat)
       && ExitT(ops, camera, sat) > 0.0
    {
      BeyondExitOutside(ops, camera, sat);
    }
  }

  /** A point on the line of sight past the exit point lies outside the sphere. */
  lemma BeyondExitOutside(ops: Ops, camera: Vec3, sat: Vec3)
    requires SqrtLaw(ops)
    requires ClosestDistance(ops, camera, sat) < EarthRadius
    requires Length(ops, Sub(sat, camera)) > ExitT(ops, camera, sat) > 0.0
    ensures NormSq(sat) > EarthRadius * EarthRadius
  {
    var len := Length(ops, Sub(sat, camera));
    var u := RayDirection(ops, camera, sat);
    var t := ClosestT(ops, camera, sat);
    var d := ClosestDistance(ops, camera, sat);
    var h := HalfChord(ops, d);
    SatelliteAlongRay(ops, camera, sat);
    assert NormSq(Sub(sat, camera)) > 0.0 by {
      LengthFacts(ops, Sub(sat, camera));
    }
    ClosestGeometry(ops, camera, sat);
    assert 0.0 <= h && h * h == EarthRadius * EarthRadius - d * d by {
      HalfChordSquared(ops, d);
      MulStrictMono(d, EarthRadius);
      SqrtOf(ops, EarthRadius * EarthRadius - d * d);
    }
    NormSqAlongRay(camera, u, len);
    BeyondAlgebra(NormSq(camera), Dot(camera, u), NormSq(u), t, h, d * d, len, EarthRadius * EarthRadius);
  }

  /** The satellite is the point at its own distance along the line of sight. */
  lemma SatelliteAlongRay(ops: Ops, camera: Vec3, sat: Vec3)
    requires SqrtLaw(ops)
    requires Length(ops, Sub(sat, camera)) > 0.0
    ensures Add(camera, Scale(RayDirection(ops, camera, sat), Length(ops, Sub(sat, camera)))) == sat
  {
    var v := Sub(sat, camera);
    var len := Length(ops, v);
    assert RayDirection(ops, camera, sat) == Scale(v, 1.0 / len);
    ScaleBack(v, len);
  }

  /** Scaling a vector by 1/k and then by k gives it back. */
  lemma ScaleBack(v: Vec3, k: real)
    requires k != 0.0
    ensures Scale(Scale(v, 1.0 / k), k) == v
  {
  }

  /** Past the exit parameter t + h, the squared distance n + 2·s·dcu + s²·nu exceeds r2. */
  lemma BeyondAlgebra(n: real, dcu: real, nu: real, t: real, h: real, d2: real, s: real, r2: real)
    requires nu == 1.0 && dcu == -t && d2 == n - t * t && h * h == r2 - d2 && 0.0 <= h && s > t + h
    ensures n + 2.0 * s * dcu + s * s * nu > r2
  {
    MulStrictMono(h, s - t);
    assert n + 2.0 * s * dcu + s * s * nu == (s - t) * (s - t) + d2;
  }

  /** The closest-approach quantities of a ray of positive length: its
      direction is a unit vector, and the squared distance of closest
      approach is the squared camera distance less the squared parameter. */
  lemma ClosestGeometry(ops: Ops, camera: Vec3, sat: Vec3)
    requires SqrtLaw(ops)
    requires NormSq(Sub(sat, camera)) > 0.0
    ensures NormSq(RayDirection(ops, camera, sat)) == 1.0
    ensures Dot(camera, RayDirection(ops, camera, sat)) == -ClosestT(ops, camera, sat)
    ensures 0.0 <= ClosestDistance(ops, camera, sat)
    ensures ClosestDistance(ops, camera, sat) * ClosestDistance(ops, camera, sat)
            == NormSq(camera) - ClosestT(ops, camera, sat) * ClosestT(ops, camera, sat)
  {
    NormalizeUnit(ops, Sub(sat, camera));
    var u := RayDirection(ops, camera, sat);
    var t := ClosestT(ops, camera, sat);
    var closest := Add(camera, Scale(u, t));
    NormSqAlongRay(camera, u, t);
    assert Sub(closest, Zero) == closest;
    LengthFacts(ops, closest);
  }

  /** The algebra of the exit point: with the closest-approach and half-chord
      relations, the point at parameter t + h is at squared distance r2. */
  lemma ExitAlgebra(n: real, dcu: real, nu: real, t: real, h: real, d2: real, r2: real)
    requires nu == 1.0 && dcu == -t && d2 == n - t * t && h * h == r2 - d2
    ensures n + 2.0 * (t + h) * dcu + (t + h) * (t + h) * nu == r2
  {
  }

  // A satellite directly between the camera and the Earth: the camera
  // 20000 km out on the scene Z axis, the satellite 10000 km out on the same
  // side. Nothing occludes it, yet the far-side heuristic as written hides it.

  const ExampleCamera: Vec3 := Vec3(0.0, 0.0, 20000.0)
  const ExampleSatellite: Vec3 := Vec3(0.0, 0.0, 10000.0)

  /** The square roots the example needs. */
  predicate RootsOfExample(ops: Ops)
  {
    && ops.sqrt(0.0) == 0.0
    && ops.sqrt(100000000.0) == 10000.0
    && ops.sqrt(400000000.0) == 20000.0
    && ops.sqrt(EarthRadius * EarthRadius) == EarthRadius
  }

  lemma ExampleRoots(ops: Ops)
    requires SqrtLaw(ops)
    ensures RootsOfExample(ops)
  {
    SqrtUnique(ops, 100000000.0, 10000.0);
    SqrtUnique(ops, 400000000.0, 20000.0);
    SqrtUnique(ops, EarthRadius * EarthRadius, EarthRadius);
  }

  lemma ExampleDirection(ops: Ops)
    requires RootsOfExample(ops)
    ensures RayDirection(ops, ExampleCamera, ExampleSatellite) == Vec3(0.0, 0.0, -1.0)
    ensures Length(ops, Sub(ExampleSatellite, ExampleCamera)) == 10000.0
  {
    var v := Sub(ExampleSatellite, ExampleCamera);
    assert v == Vec3(0.0, 0.0, -10000.0);
    assert Length(ops, v) == 10000.0;
    NormalizeBy(ops, v, 10000.0);
    assert Scale(Vec3(0.0, 0.0, -10000.0), 1.0 / 10000.0) == Vec3(0.0, 0.0, -1.0);
  }

  /** The example satellite is on the camera's side of the Earth. */
  lemma ExampleInFront()
    ensures Dot(ExampleCamera, ExampleSatellite) > 0.0
  {
  }

  lemma ExampleSegmentOutside(te: real)
    requires 0.0 < te < 10000.0
    ensures NormSq(Add(ExampleCamera, Scale(Vec3(0.0, 0.0, -1.0), te))) > EarthRadius * EarthRadius
  {
    var p := Add(ExampleCamera, Scale(Vec3(0.0, 0.0, -1.0), te));
    assert p == Vec3(0.0, 0.0, 20000.0 - te);
    MulStrictMono(EarthRadius, 20000.0 - te);
  }

  /** The line of sight from the example camera to the example satellite
      stays more than 10000 km from the centre, so it never meets the Earth. */
  lemma ExampleNotBlocked(ops: Ops)
    requires SqrtLaw(ops)
    ensures !RayBlocked(ops, ExampleCamera, ExampleSatellite)
  {
    if RayBlocked(ops, ExampleCamera, ExampleSatellite) {
      ExampleRoots(ops);
      ExampleDirection(ops);
      RayBlockedExitOnSurface(ops, ExampleCamera, ExampleSatellite);
      ExampleSegmentOutside(ExitT(ops, ExampleCamera, ExampleSatellite));
    }
  }

  lemma ExampleOutside(ops: Ops)
    requires RootsOfExample(ops)
    ensures !InsideEarth(ops, ExampleSatellite)
  {
    assert NormSq(Sub(Zero, ExampleSatellite)) == 100000000.0;
  }

  lemma ExampleUnit(ops: Ops, v: Vec3, len: real, u: Vec3)
    requires ops.sqrt(len * len) == len && len > 0.0
    requires v == Scale(u, len) && NormSq(u) == 1.0
    ensures Length(ops, v) == len
    ensures Normalize(ops, v) == u
  {
    NormSqScale(u, len);
    assert NormSq(v) == len * len;
    assert Length(ops, v) == ops.sqrt(len * len);
    NormalizeBy(ops, v, len);
    assert Scale(Scale(u, len), 1.0 / len) == u;
  }

  lemma ExampleNormals(ops: Ops)
    requires RootsOfExample(ops)
    ensures Normalize(ops, Sub(Zero, ExampleCamera)) == Vec3(0.0, 0.0, -1.0)
    ensures Normalize(ops, Sub(ExampleCamera, Zero)) == Vec3(0.0, 0.0, 1.0)
    ensures Normalize(ops, Sub(ExampleSatellite, Zero)) == Vec3(0.0, 0.0, 1.0)
    ensures Length(ops, Sub(Zero, ExampleCamera)) == 20000.0
    ensures Length(ops, Sub(Zero, ExampleSatellite)) == 10000.0
  {
    ExampleUnit(ops, Sub(Zero, ExampleCamera), 20000.0, Vec3(0.0, 0.0, -1.0));
    ExampleUnit(ops, Sub(ExampleCamera, Zero), 20000.0, Vec3(0.0, 0.0, 1.0));
    ExampleUnit(ops, Sub(ExampleSatellite, Zero), 10000.0, Vec3(0.0, 0.0, 1.0));
    ExampleUnit(ops, Sub(Zero, ExampleSatellite), 10000.0, Vec3(0.0, 0.0, -1.0));
  }

  lemma ExampleFarSide(ops: Ops)
    requires RootsOfExample(ops)
    ensures FarSide(ops, AsWritten, ExampleCamera, ExampleSatellite)
    ensures !FarSide(ops, Corrected, ExampleCamera, ExampleSatellite)
  {
    ExampleNormals(ops);
    assert Dot(Vec3(0.0, 0.0, -1.0), Vec3(0.0, 0.0, 1.0)) == -1.0;
    assert Dot(Vec3(0.0, 0.0, 1.0), Vec3(0.0, 0.0, 1.0)) == 1.0;
  }

  /** A label that passes the filter, inside-the-Earth and ray tests is
      hidden by the far-side test whenever that test fires. */
  lemma FarSideDecides(ops: Ops, rule: FarSideRule, vis: Visibility, sat: Vec3, camera: Vec3,
      ndc: Option<Vec3>, width: real, height: real)
    requires vis != Hidden && !InsideEarth(ops, sat) && !RayBlocked(ops, camera, sat)
    ensures FarSide(ops, rule, camera, sat) ==> LabelDecision(ops, rule, vis, sat, camera, ndc, width, height) == Hide
    ensures !FarSide(ops, rule, camera, sat) && ndc.Some? && -1.0 <= ndc.value.z <= 1.0 ==>
      LabelDecision(ops, rule, vis, sat, camera, ndc, width, height) == Show(LabelTranslation(ndc.value, width, height), LabelScale)
  {
  }

  /** The source's far-side heuristic hides the label of a satellite sitting in
      plain view between the camera and the Earth; the corrected rule shows it.
      The ray-sphere test, which is exact, agrees that nothing blocks it. */
  lemma FarSideFinding(ops: Ops, ndc: Vec3, width: real, height: real)
    requires SqrtLaw(ops)
    requires -1.0 <= ndc.z <= 1.0
    ensures !InsideEarth(ops, ExampleSatellite) && !RayBlocked(ops, ExampleCamera, ExampleSatellite)
    ensures Dot(ExampleCamera, ExampleSatellite) > 0.0
    ensures LabelDecision(ops, AsWritten, Visible, ExampleSatellite, ExampleCamera, Some(ndc), width, height) == Hide
    ensures LabelDecision(ops, Corrected, Visible, ExampleSatellite, ExampleCamera, Some(ndc), width, height)
            == Show(LabelTranslation(ndc, width, height), LabelScale)
  {
    ExampleRoots(ops);
    ExampleOutside(ops);
    ExampleNotBlocked(ops);
    ExampleFarSide(ops);
    FarSideDecides(ops, AsWritten, Visible, ExampleSatellite, ExampleCamera, Some(ndc), width, height);
    FarSideDecides(ops, Corrected, Visible, ExampleSatellite, ExampleCamera, Some(ndc), width, height);
    ExampleInFront();
  }
}
