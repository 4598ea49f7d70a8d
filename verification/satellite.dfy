/** A tracked satellite and its position update: the elapsed time since the
    element set's epoch is cut to whole seconds, turned into minutes, rejected
    beyond a one-week horizon, and otherwise handed to SGP4, whose errors and
    panics are both contained as "no position". */
module Satellites {
  import opened Wrappers
  import opened Vectors
  import opened RealMath
  import opened CoordinateDebug

  /** Instants are nanoseconds since the Unix epoch (UTC). */
  type Instant = int

  const NanosPerSecond: int := 1_000_000_000

  /** An orbital element set: the epoch it is referred to, plus the orbital
      data SGP4 reads, which this model treats as opaque. */
  datatype Elements = Elements(epoch: Instant, orbit: seq<real>)

  /** Initialised SGP4 constants, opaque. */
  datatype Constants = Constants(coefficients: seq<real>)

  /** How a call into the SGP4 library ends: it returns, or it panics and unwinds. */
  datatype Attempt<+T> = Returned(value: T) | Panicked

  /** The two SGP4 entry points the update uses; an `Err` from either is `None`.
      The library itself is not part of this model, so it is a parameter. */
  datatype Sgp4 = Sgp4(
    fromElements: Elements -> Attempt<Option<Constants>>,
    propagate: (Constants, real) -> Attempt<Option<Vec3>>)

  datatype Satellite = Satellite(
    name: string,
    elements: Elements,
    lastUpdate: Instant,
    useTrajectory: bool)

  /** `Satellite::new`: stamped with the current clock, trajectory mode on. */
  function NewSatellite(name: string, elements: Elements, now: Instant): (s: Satellite)
    ensures s.useTrajectory
    ensures s.name == name && s.elements == elements && s.lastUpdate == now
  {
    Satellite(name, elements, now, true)
  }

  /** chrono's `num_seconds`: the whole seconds of a duration, rounded toward zero. */
  function WholeSeconds(nanos: int): (s: int)
    ensures 0 <= nanos ==> 0 <= s * NanosPerSecond <= nanos < (s + 1) * NanosPerSecond
    ensures nanos < 0 ==> (s - 1) * NanosPerSecond < nanos <= s * NanosPerSecond <= 0
  {
    if nanos >= 0 then nanos / NanosPerSecond else -((-nanos) / NanosPerSecond)
  }

  /** The propagation horizon: seven days, in minutes. */
  const HorizonMinutes: real := 7.0 * 24.0 * 60.0

  /** Minutes from the epoch to `time`, counting whole seconds only: the
      fraction of a second is dropped toward the epoch, on either side of it. */
  function MinutesSinceEpoch(elements: Elements, time: Instant): (m: real)
    ensures var d := (time - elements.epoch) as real;
      0.0 <= d ==> 0.0 <= m * 60.0 * 1_000_000_000.0 <= d < (m * 60.0 + 1.0) * 1_000_000_000.0
    ensures var d := (time - elements.epoch) as real;
      d < 0.0 ==> (m * 60.0 - 1.0) * 1_000_000_000.0 < d <= m * 60.0 * 1_000_000_000.0 <= 0.0
  {
    (WholeSeconds(time - elements.epoch) as real) / 60.0
  }

  /** `update_position`: `None` beyond the horizon, otherwise the TEME position
      in km that SGP4 propagates to, with every SGP4 error or panic turned
      into `None`. The satellite itself is not changed. */
  function UpdatePosition(sat: Satellite, time: Instant, sgp4: Sgp4): (r: Option<Vec3>)
    ensures r.Some? ==> Abs(MinutesSinceEpoch(sat.elements, time)) <= HorizonMinutes
    ensures r.Some? ==>
      && sgp4.fromElements(sat.elements).Returned?
      && sgp4.fromElements(sat.elements).value.Some?
      && sgp4.propagate(sgp4.fromElements(sat.elements).value.value, MinutesSinceEpoch(sat.elements, time)) == Returned(r)
    ensures sgp4.fromElements(sat.elements).Panicked? ==> r.None?
  {
    var minutes := MinutesSinceEpoch(sat.elements, time);
    if Abs(minutes) > HorizonMinutes then None
    else
      match sgp4.fromElements(sat.elements)
      case Panicked => None
      case Returned(None) => None
      case Returned(Some(constants)) =>
        match sgp4.propagate(constants, minutes)
        case Panicked => None
        case Returned(position) => position
  }

  /** A position comes back exactly when the time is within the horizon, the
      constants are built and propagation returns a position. */
  lemma UpdatePositionIff(sat: Satellite, time: Instant, sgp4: Sgp4, p: Vec3)
    ensures UpdatePosition(sat, time, sgp4) == Some(p) <==>
      && Abs(MinutesSinceEpoch(sat.elements, time)) <= HorizonMinutes
      && (exists c :: sgp4.fromElements(sat.elements) == Returned(Some(c))
                      && sgp4.propagate(c, MinutesSinceEpoch(sat.elements, time)) == Returned(Some(p)))
  {
    var minutes := MinutesSinceEpoch(sat.elements, time);
    if Abs(minutes) <= HorizonMinutes && sgp4.fromElements(sat.elements).Returned? && sgp4.fromElements(sat.elements).value.Some? {
      var c := sgp4.fromElements(sat.elements).value.value;
      assert sgp4.fromElements(sat.elements) == Returned(Some(c));
    }
  }

  /** Beyond the horizon the answer is `None` whatever SGP4 would do. */
  lemma BeyondHorizonIsNone(sat: Satellite, time: Instant, sgp4: Sgp4)
    requires Abs(MinutesSinceEpoch(sat.elements, time)) > HorizonMinutes
    ensures UpdatePosition(sat, time, sgp4) == None
  {
  }

  /** A week after the epoch is still inside the horizon, and so is the
      fraction of a second after it, because only whole seconds count. */
  lemma HorizonIsInclusive(sat: Satellite, sgp4: Sgp4, c: Constants, p: Vec3, extra: int)
    requires 0 <= extra < NanosPerSecond
    requires sgp4.fromElements(sat.elements) == Returned(Some(c))
    requires sgp4.propagate(c, HorizonMinutes) == Returned(Some(p))
    ensures UpdatePosition(sat, sat.elements.epoch + 604_800 * NanosPerSecond + extra, sgp4) == Some(p)
  {
    var time := sat.elements.epoch + 604_800 * NanosPerSecond + extra;
    assert WholeSeconds(time - sat.elements.epoch) == 604_800;
  }

  /** One whole second past the week is rejected. */
  lemma HorizonEnds(sat: Satellite, sgp4: Sgp4)
    ensures UpdatePosition(sat, sat.elements.epoch + 604_801 * NanosPerSecond, sgp4) == None
    ensures UpdatePosition(sat, sat.elements.epoch - 604_801 * NanosPerSecond, sgp4) == None
  {
    assert WholeSeconds(604_801 * NanosPerSecond) == 604_801;
    assert WholeSeconds(-604_801 * NanosPerSecond) == -604_801;
  }

  /** A panic inside SGP4 is contained: whichever call panics, the result is `None`. */
  lemma PanicIsNone(sat: Satellite, time: Instant, sgp4: Sgp4)
    requires sgp4.fromElements(sat.elements) == Panicked
      || (exists c :: sgp4.fromElements(sat.elements) == Returned(Some(c))
                      && sgp4.propagate(c, MinutesSinceEpoch(sat.elements, time)) == Panicked)
    ensures UpdatePosition(sat, time, sgp4) == None
  {
  }

  /** Negative elapsed times round toward zero, not down: half a second before
      the epoch is minute zero, the same as the epoch itself. */
  lemma TruncatesTowardZero(elements: Elements)
    ensures MinutesSinceEpoch(elements, elements.epoch - NanosPerSecond / 2) == 0.0
    ensures MinutesSinceEpoch(elements, elements.epoch + NanosPerSecond / 2) == 0.0
    ensures MinutesSinceEpoch(elements, elements.epoch - 90 * NanosPerSecond) == -1.5
  {
    assert WholeSeconds(-(NanosPerSecond / 2)) == 0;
    assert WholeSeconds(NanosPerSecond / 2) == 0;
    assert WholeSeconds(-90 * NanosPerSecond) == -90;
  }

  /** `SatelliteBundle::new`: the entity starts at the scene-frame image of
      the current position, or at the origin when there is none. */
  function InitialTranslation(sat: Satellite, now: Instant, sgp4: Sgp4): (t: Vec3)
    ensures UpdatePosition(sat, now, sgp4).None? ==> t == Zero
  {
    match UpdatePosition(sat, now, sgp4)
    case Some(pos) => Vec3(pos.x, pos.z, -pos.y)
    case None => Zero
  }

  /** The bundle's hand-written swizzle is the frame change of `teme_to_bevy`:
      mapping the translation back gives the TEME position. */
  lemma InitialTranslationIsFrameChange(sat: Satellite, now: Instant, sgp4: Sgp4, name: string, debug: bool)
    ensures UpdatePosition(sat, now, sgp4).Some? ==>
      InitialTranslation(sat, now, sgp4) == TemeToBevy(UpdatePosition(sat, now, sgp4).value, name, debug)
      && BevyToTeme(InitialTranslation(sat, now, sgp4)) == UpdatePosition(sat, now, sgp4).value
  {
  }
}
