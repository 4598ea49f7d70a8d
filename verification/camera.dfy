/** The orbit camera: a controller holding distance, yaw and pitch about a
    fixed centre, driven each frame by left-button drags, the arrow keys and
    the W/S zoom keys, and the camera translation it yields. */
module Camera {
  import opened Wrappers
  import opened Vectors
  import opened RealMath

  datatype CameraController = CameraController(orbitCenter: Vec3, distance: real, yaw: real, pitch: real)

  /** `CameraController::default`. */
  const DefaultController: CameraController := CameraController(Zero, 15000.0, 0.0, 0.0)

  /** Pitch stays a tenth of a radian away from either pole. */
  const PitchMin: real := -Pi / 2.0 + 0.1
  const PitchMax: real := Pi / 2.0 - 0.1

  /** Radians of yaw or pitch per pixel dragged. */
  const DragSensitivity: real := 0.001
  /** Radians per second for the arrow keys. */
  const RotationSpeed: real := 1.0
  /** Units per second for W and S. */
  const ZoomSpeed: real := 500.0
  const MinDistance: real := 1000.0
  const MaxDistance: real := 100000.0

  /** A cursor position in window pixels. */
  datatype Point2 = Point2(x: real, y: real)

  /** `f32::clamp` with bounds in order. */
  function Clamp(x: real, lo: real, hi: real): (r: real)
    requires lo <= hi
    ensures lo <= r <= hi
    ensures lo <= x <= hi ==> r == x
    ensures x < lo ==> r == lo
    ensures x > hi ==> r == hi
  {
    if x < lo then lo else if x > hi then hi else x
  }

  function ClampPitch(p: real): real
  {
    Clamp(p, PitchMin, PitchMax)
  }

  predicate PitchInBounds(c: CameraController)
  {
    PitchMin <= c.pitch <= PitchMax
  }

  predicate DistanceInBounds(c: CameraController)
  {
    MinDistance <= c.distance <= MaxDistance
  }

  /** The controller together with the last cursor position seen while dragging. */
  datatype DragState = DragState(controller: CameraController, last: Option<Point2>)

  /** One cursor-moved event while the left button is held: with a previous
      position the motion turns the camera, 0.001 radian per pixel, with the
      pitch clamped; without one the event only records the position. The
      orbit centre and distance never change. */
  function DragEvent(st: DragState, p: Point2): (r: DragState)
    ensures r.last == Some(p)
    ensures r.controller.orbitCenter == st.controller.orbitCenter
    ensures r.controller.distance == st.controller.distance
    ensures st.last.None? ==> r.controller == st.controller
    ensures st.last.Some? ==> PitchInBounds(r.controller)
    ensures st.last.Some? ==>
      r.controller.pitch == Clamp(st.controller.pitch - (p.y - st.last.value.y) * DragSensitivity, PitchMin, PitchMax)
    ensures st.last.Some? ==>
      r.controller.yaw == st.controller.yaw - (p.x - st.last.value.x) * DragSensitivity
  {
    var c := st.controller;
    match st.last
    case None => DragState(c, Some(p))
    case Some(prev) =>
      var yaw := c.yaw - (p.x - prev.x) * DragSensitivity;
      var pitch := ClampPitch(c.pitch - (p.y - prev.y) * DragSensitivity);
      DragState(c.(yaw := yaw, pitch := pitch), Some(p))
  }

  /** The cursor events of one frame, in order. Dragging moves neither the
      orbit centre nor the distance, keeps a pitch that starts in bounds in
      bounds, and remembers the last event's position. */
  function DragEvents(st: DragState, events: seq<Point2>): (r: DragState)
    ensures r.controller.orbitCenter == st.controller.orbitCenter
    ensures r.controller.distance == st.controller.distance
    ensures PitchInBounds(st.controller) ==> PitchInBounds(r.controller)
    ensures events == [] ==> r == st
    ensures events != [] ==> r.last == Some(events[|events| - 1])
  {
    if events == [] then st else DragEvent(DragEvents(st, events[..|events| - 1]), events[|events| - 1])
  }

  /** One frame's input: the left button, the cursor events, the held keys and the frame time. */
  datatype CameraInput = CameraInput(
    leftPressed: bool,
    cursorEvents: seq<Point2>,
    arrowLeft: bool, arrowRight: bool, arrowUp: bool, arrowDown: bool,
    keyW: bool, keyS: bool,
    dt: real)

  datatype CameraFrame = CameraFrame(controller: CameraController, last: Option<Point2>, translation: Vec3)

  /** The camera's offset from the orbit centre: a point at distance
      `distance`, straight along +Z when yaw and pitch are both zero. */
  function OrbitOffset(ops: Ops, c: CameraController): (o: Vec3)
    ensures TrigLaw(ops) ==> NormSq(o) == c.distance * c.distance
    ensures TrigLaw(ops) && c.yaw == 0.0 && c.pitch == 0.0 ==> o == Vec3(0.0, 0.0, c.distance)
  {
    OrbitNorm(ops, c.distance, c.pitch, c.yaw);
    Vec3(c.distance * ops.cos(c.pitch) * ops.sin(c.yaw),
         c.distance * ops.sin(c.pitch),
         c.distance * ops.cos(c.pitch) * ops.cos(c.yaw))
  }

  /** Distance times the unit vector at a pitch and yaw has norm `distance`. */
  lemma OrbitNorm(ops: Ops, d: real, pitch: real, yaw: real)
    ensures TrigLaw(ops) ==>
      NormSq(Vec3(d * ops.cos(pitch) * ops.sin(yaw), d * ops.sin(pitch), d * ops.cos(pitch) * ops.cos(yaw)))
        == d * d
  {
    if TrigLaw(ops) {
      var cp, sp, cy, sy := ops.cos(pitch), ops.sin(pitch), ops.cos(yaw), ops.sin(yaw);
      assert sp * sp + cp * cp == 1.0;
      assert sy * sy + cy * cy == 1.0;
      assert NormSq(Vec3(d * cp * sy, d * sp, d * cp * cy)) == d * d * (cp * cp * (sy * sy + cy * cy) + sp * sp);
    }
  }

  /** The keyboard part of a frame: arrows turn, W and S zoom within limits.
      Up adds and Down subtracts the frame time from the pitch, each step
      clamped, so either lands the pitch in bounds; with neither the pitch
      is untouched; with a non-negative frame time the distance stays in
      bounds. The orbit centre never moves. */
  function KeyStep(c: CameraController, input: CameraInput): (r: CameraController)
    ensures r.orbitCenter == c.orbitCenter
    ensures input.arrowUp || input.arrowDown ==> PitchInBounds(r)
    ensures !input.arrowUp && !input.arrowDown ==> r.pitch == c.pitch
    ensures input.arrowUp && !input.arrowDown ==> r.pitch == Clamp(c.pitch + input.dt, PitchMin, PitchMax)
    ensures input.arrowDown && !input.arrowUp ==> r.pitch == Clamp(c.pitch - input.dt, PitchMin, PitchMax)
    ensures input.arrowUp && input.arrowDown ==>
      r.pitch == Clamp(Clamp(c.pitch + input.dt, PitchMin, PitchMax) - input.dt, PitchMin, PitchMax)
    ensures input.dt >= 0.0 && DistanceInBounds(c) ==> DistanceInBounds(r)
  {
    var dt := input.dt;
    var yaw1 := if input.arrowLeft then c.yaw - RotationSpeed * dt else c.yaw;
    var yaw2 := if input.arrowRight then yaw1 + RotationSpeed * dt else yaw1;
    var pitch1 := if input.arrowUp then ClampPitch(c.pitch + RotationSpeed * dt) else c.pitch;
    var pitch2 := if input.arrowDown then ClampPitch(pitch1 - RotationSpeed * dt) else pitch1;
    var dist1 := if input.keyW then Max(c.distance - ZoomSpeed * dt, MinDistance) else c.distance;
    var dist2 := if input.keyS then Min(dist1 + ZoomSpeed * dt, MaxDistance) else dist1;
    CameraController(c.orbitCenter, dist2, yaw2, pitch2)
  }

  function Max(a: real, b: real): real { if a >= b then a else b }
  function Min(a: real, b: real): real { if a <= b then a else b }

  /** `camera_controller_system` for one camera: drag (or forget the cursor
      when the button is up), then keys, then place the camera. */
  function CameraStep(ops: Ops, c: CameraController, last: Option<Point2>, input: CameraInput): (r: CameraFrame)
    ensures r.controller.orbitCenter == c.orbitCenter
    ensures !input.leftPressed ==> r.last == None
  {
    var dragged :=
      if input.leftPressed then DragEvents(DragState(c, last), input.cursorEvents)
      else DragState(c, None);
    var keyed := KeyStep(dragged.controller, input);
    CameraFrame(keyed, dragged.last, Add(keyed.orbitCenter, OrbitOffset(ops, keyed)))
  }

  /** The default controller starts inside every bound. */
  lemma DefaultInBounds()
    ensures PitchInBounds(DefaultController) && DistanceInBounds(DefaultController)
    ensures DefaultController.yaw == 0.0 && DefaultController.orbitCenter == Zero
  {
  }

  /** Drag turns telescope: after a run of events the yaw has moved by the
      horizontal distance from the starting reference (the remembered cursor,
      or else the first event) to the last event. */
  lemma {:induction false} DragYawTelescopes(st: DragState, events: seq<Point2>)
    requires events != []
    ensures var anchor := if st.last.Some? then st.last.value else events[0];
      DragEvents(st, events).controller.yaw
        == st.controller.yaw - (events[|events| - 1].x - anchor.x) * DragSensitivity
  {
    var init := events[..|events| - 1];
    if init == [] {
      assert DragEvents(st, init) == st;
    } else {
      DragYawTelescopes(st, init);
      assert init[0] == events[0];
    }
  }

  /** Any frame keeps a pitch that starts in bounds in bounds. */
  lemma CameraStepPitch(ops: Ops, c: CameraController, last: Option<Point2>, input: CameraInput)
    requires PitchInBounds(c)
    ensures PitchInBounds(CameraStep(ops, c, last, input).controller)
  {
  }

  /** W zooms in to at least MinDistance, S out to at most MaxDistance, and
      with a non-negative frame time the distance never leaves its bounds. */
  lemma ZoomBounds(c: CameraController, input: CameraInput)
    ensures input.keyW && !input.keyS ==>
      KeyStep(c, input).distance == Max(c.distance - ZoomSpeed * input.dt, MinDistance)
    ensures input.keyS && !input.keyW ==>
      KeyStep(c, input).distance == Min(c.distance + ZoomSpeed * input.dt, MaxDistance)
    ensures !input.keyW && !input.keyS ==> KeyStep(c, input).distance == c.distance
    ensures input.dt >= 0.0 && DistanceInBounds(c) ==> DistanceInBounds(KeyStep(c, input))
  {
  }

  lemma CameraStepDistance(ops: Ops, c: CameraController, last: Option<Point2>, input: CameraInput)
    requires input.dt >= 0.0 && DistanceInBounds(c)
    ensures DistanceInBounds(CameraStep(ops, c, last, input).controller)
  {
  }

  /** Yaw is never clamped: the arrows move it by exactly the frame time. */
  lemma ArrowYaw(c: CameraController, input: CameraInput)
    ensures KeyStep(c, input).yaw ==
      c.yaw - (if input.arrowLeft then input.dt else 0.0) + (if input.arrowRight then input.dt else 0.0)
  {
  }

  /** Releasing the button forgets the cursor, and the next drag's first event
      then only records it: the camera does not jump. */
  lemma ReleaseThenPress(ops: Ops, c: CameraController, last: Option<Point2>, up: CameraInput, down: CameraInput, p: Point2)
    requires !up.leftPressed
    requires down.leftPressed && down.cursorEvents == [p]
    ensures CameraStep(ops, c, last, up).last == None
    ensures var c1 := CameraStep(ops, c, last, up).controller;
      CameraStep(ops, c1, None, down).controller == KeyStep(c1, down)
  {
    var c1 := CameraStep(ops, c, last, up).controller;
    assert down.cursorEvents[..0] == [];
    assert DragEvents(DragState(c1, None), down.cursorEvents) == DragState(c1, Some(p));
  }

  /** The camera sits on the sphere of radius `distance` about the orbit centre. */
  lemma TranslationOnOrbit(ops: Ops, c: CameraController, last: Option<Point2>, input: CameraInput)
    requires TrigLaw(ops)
    ensures var r := CameraStep(ops, c, last, input);
      NormSq(Sub(r.translation, c.orbitCenter)) == r.controller.distance * r.controller.distance
  {
    var r := CameraStep(ops, c, last, input);
    var k := r.controller;
    assert Sub(r.translation, c.orbitCenter) == OrbitOffset(ops, k);
  }
}
