// The consigns one tick computes before the arrival gates: the speed of the
// moving axis, the angular speed of the turning axis, and the hand-written
// speed ramp (holonomic_do_ramp) the speed goes through on its way out.
module Consigns {
  import opened Angles
  import opened Trajectory

  /** The speed consign of the moving switch: cruise speed in a straight
      line, tapered to twice the distance near the target; a fifth of the
      cruise speed on a circle; nothing when the moving axis is idle. */
  function SpeedConsign(m: MovingState, distance2target: nat): (s: int)
    ensures 0 <= s <= SPEED_ROBOT
    ensures m == MovingIdle ==> s == 0
    ensures m == MovingCircle ==> s == SPEED_ROBOT / 5
    ensures m == MovingStraight ==> (s == SPEED_ROBOT <==> distance2target >= TAPER_DISTANCE)
    ensures m == MovingStraight && distance2target < TAPER_DISTANCE ==> s == 2 * distance2target
  {
    match m
    case MovingStraight =>
      if distance2target < TAPER_DISTANCE then 2 * distance2target else SPEED_ROBOT
    case MovingCircle => SPEED_ROBOT / 5
    case MovingIdle => 0
  }

  /** The straight taper never speeds up as the robot gets closer, and it
      meets the cruise speed at the taper distance without a jump. */
  lemma StraightSpeedMonotone(d1: nat, d2: nat)
    requires d1 <= d2
    ensures SpeedConsign(MovingStraight, d1) <= SpeedConsign(MovingStraight, d2)
    ensures SpeedConsign(MovingStraight, TAPER_DISTANCE - 1) == SPEED_ROBOT - 2
  {
  }

  /** distance2target is the Euclidean distance truncated to an integer. */
  predicate TruncatedDistance(d: int, p: Point, q: Point)
  {
    0 <= d && (d * d) as real <= Dist2(p, q) < ((d + 1) * (d + 1)) as real
  }

  /** In a straight line the robot is sent at cruise speed exactly when it is
      at least 250 mm from the target. */
  lemma CruiseExactlyWhenFar(d: nat, pos: Point, target: Point)
    requires TruncatedDistance(d, pos, target)
    ensures SpeedConsign(MovingStraight, d) == SPEED_ROBOT <==>
              Dist2(pos, target) >= (TAPER_DISTANCE * TAPER_DISTANCE) as real
  {
    if d >= TAPER_DISTANCE {
      IntSquareMono(TAPER_DISTANCE, d);
    } else {
      IntSquareMono(d + 1, TAPER_DISTANCE);
    }
  }

  lemma IntSquareMono(a: nat, b: nat)
    requires a <= b
    ensures a * a <= b * b
  {
    var low, mid, high := a * a, a * b, b * b;
    assert low <= mid;
    assert mid <= high;
  }

  /** The angular-speed consign of the turning switch. TURNING_CAP is a
      bang-bang controller of fixed magnitude; the speed-offset and
      face-point modes issue a placeholder 1; an idle turning axis issues 0. */
  function OmegaConsign(t: TurningState, aTarget: real, heading: real): (o: int)
    ensures t == TurningIdle <==> o == 0
    ensures t == TurningCap ==> o == CAP_OMEGA || o == -CAP_OMEGA
    ensures t == TurningCap ==>
              (o == CAP_OMEGA <==> aTarget - heading < 0.0 || aTarget - heading > PI)
    ensures t == TurningSpeedOffset || t == TurningFacepoint ==> o == PLACEHOLDER_OMEGA
  {
    match t
    case TurningCap =>
      if aTarget - heading < 0.0 || aTarget - heading > PI then CAP_OMEGA else -CAP_OMEGA
    case TurningSpeedOffset => PLACEHOLDER_OMEGA
    case TurningFacepoint => PLACEHOLDER_OMEGA
    case TurningIdle => 0
  }

  /** For heading errors from -PI up to (not including) a full turn, the
      bang-bang consign is positive exactly when the best delta angle is
      negative: the sign always tracks the shorter rotation (with the
      drive's sign convention opposite to that of the heading error). */
  lemma CapFollowsBestDelta(aTarget: real, heading: real)
    requires -PI <= aTarget - heading < TWO_PI
    ensures OmegaConsign(TurningCap, aTarget, heading) > 0 <==> BestDeltaAngle(aTarget - heading) < 0.0
  {
  }

  /** Below -PI the coded test no longer follows the shorter rotation: the
      shorter rotation is positive, yet the sign is the one issued for small
      negative errors, whose shorter rotation is negative. */
  lemma CapBelowMinusPiTurnsTheLongWay(aTarget: real, heading: real)
    requires -TWO_PI < aTarget - heading < -PI
    ensures ShortestDelta(aTarget - heading) > 0.0
    ensures OmegaConsign(TurningCap, aTarget, heading) == OmegaConsign(TurningCap, 0.0, 0.1)
    ensures ShortestDelta(0.0 - 0.1) < 0.0
  {
  }

  function IntAbs(x: int): nat
  {
    if x < 0 then -x else x
  }

  function Max(a: int, b: int): int
  {
    if a < b then b else a
  }

  /** holonomic_do_ramp on the process-wide prev_speed: one step of 20 toward
      the consign, up when the consign is at least the previous speed. There
      is no clamp. */
  function Ramp(prev: int, consign: int): (r: int)
    ensures consign >= prev ==> r == prev + RAMP_STEP
    ensures consign < prev ==> r == prev - RAMP_STEP
    ensures IntAbs(r - prev) == RAMP_STEP
  {
    prev + (if consign >= prev then RAMP_STEP else -RAMP_STEP)
  }

  /** No clamp: from rest, a consign of 5 is overshot to 20. */
  lemma RampOvershoots()
    ensures Ramp(0, 5) == 20 && Ramp(0, 0) == RAMP_STEP
  {
  }

  /** No clamp: at its consign the ramp steps above it, and then back. */
  lemma RampOscillatesAtConsign(consign: int)
    ensures Ramp(consign, consign) == consign + RAMP_STEP
    ensures Ramp(consign + RAMP_STEP, consign) == consign
  {
  }

  /** n ticks of the ramp toward a fixed consign. */
  function RampN(prev: int, consign: int, n: nat): int
    decreases n
  {
    if n == 0 then prev else RampN(Ramp(prev, consign), consign, n - 1)
  }

  lemma RampOneStep(prev: int, consign: int)
    ensures IntAbs(Ramp(prev, consign) - consign) <= Max(IntAbs(prev - consign) - RAMP_STEP, RAMP_STEP)
  {
  }

  /** The ramp closes the gap by one step per tick and, once within one step
      of the consign, stays there (oscillating, since it never clamps). */
  lemma {:induction false} RampConverges(prev: int, consign: int, n: nat)
    ensures IntAbs(RampN(prev, consign, n) - consign) <= Max(IntAbs(prev - consign) - RAMP_STEP * n, RAMP_STEP)
    decreases n
  {
    if n > 0 {
      var next := Ramp(prev, consign);
      RampOneStep(prev, consign);
      RampConverges(next, consign, n - 1);
    }
  }

  /** Speeds the ramp can hold when fed consigns between 0 and the cruise
      speed: multiples of the step between 0 and one step above cruise. */
  predicate RampBand(speed: int)
  {
    0 <= speed <= SPEED_ROBOT + RAMP_STEP && speed % RAMP_STEP == 0
  }

  lemma RampStaysInBand(prev: int, consign: int)
    requires RampBand(prev) && 0 <= consign <= SPEED_ROBOT
    ensures RampBand(Ramp(prev, consign))
  {
  }
}
