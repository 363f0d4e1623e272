// Angle helpers of the holonomic trajectory manager.
// Angles are radians and are modelled as exact reals; the C code works on
// float and double, whose rounding is not modelled.
module Angles {

  /** M_PI as math.h spells it out. */
  const PI: real := 3.14159265358979323846
  /** M_PI_2, a quarter turn. */
  const HALF_PI: real := PI / 2.0
  const TWO_PI: real := 2.0 * PI

  function Abs(x: real): real
  {
    if x < 0.0 then -x else x
  }

  /** holonomic_simple_modulo_2pi. Its comment promises a reduction into
      [-PI, PI] of an angle in [-3PI, 3PI]; the code corrects by M_PI_2,
      a quarter turn, toward zero. */
  function SimpleModulo2Pi(a: real): (r: real)
    ensures -PI <= a <= PI ==> r == a
    ensures a < -PI || PI < a ==> Abs(r - a) == HALF_PI && Abs(r) < Abs(a)
  {
    if a < -PI then a + HALF_PI
    else if a > PI then a - HALF_PI
    else a
  }

  /** The reduction the comment announces: one full turn toward [-PI, PI]. */
  function FullTurnModulo(a: real): (r: real)
    ensures -3.0 * PI <= a <= 3.0 * PI ==> -PI <= r <= PI
    ensures r == a || r == a + TWO_PI || r == a - TWO_PI
  {
    if a < -PI then a + TWO_PI
    else if a > PI then a - TWO_PI
    else a
  }

  /** The coded quarter-turn correction agrees with the announced full-turn
      reduction exactly on [-PI, PI], where both are the identity. */
  lemma SimpleModuloAgreesOnlyInRange(a: real)
    ensures SimpleModulo2Pi(a) == FullTurnModulo(a) <==> -PI <= a <= PI
  {
  }

  /** Beyond 3PI/2 the coded correction does not land in [-PI, PI]. */
  lemma SimpleModuloLeavesRange(a: real)
    requires 3.0 * PI / 2.0 < a <= 3.0 * PI
    ensures SimpleModulo2Pi(a) > PI
  {
  }

  /** holonomic_best_delta_angle_rad: the signed rotation to take for an
      angle difference. Above PI it subtracts a full turn; below -PI the
      code returns 2PI - a, not a + 2PI. */
  function BestDeltaAngle(a: real): (r: real)
    ensures -PI <= a <= PI ==> r == a
    ensures -PI <= a ==> r == a || r == a - TWO_PI
    ensures -PI <= a <= 3.0 * PI ==> -PI <= r <= PI
    ensures a < -PI ==> r > 3.0 * PI
  {
    if a > PI then a - TWO_PI
    else if a < -PI then TWO_PI - a
    else a
  }

  /** Reference definition: the shorter of the two rotations by a, for a
      within three half turns either way. */
  function ShortestDelta(a: real): (r: real)
    ensures -3.0 * PI <= a <= 3.0 * PI ==> -PI <= r <= PI
    ensures r == a || r == a - TWO_PI || r == a + TWO_PI
  {
    if a > PI then a - TWO_PI
    else if a < -PI then a + TWO_PI
    else a
  }

  /** The coded helper picks the shorter rotation exactly when a >= -PI. */
  lemma BestDeltaIsShortestIff(a: real)
    ensures BestDeltaAngle(a) == ShortestDelta(a) <==> -PI <= a
  {
  }

  /** On the side the code handles, applying the helper twice changes nothing. */
  lemma BestDeltaIdempotent(a: real)
    requires -PI <= a <= 3.0 * PI
    ensures BestDeltaAngle(BestDeltaAngle(a)) == BestDeltaAngle(a)
  {
  }

  /** Two headings in (-PI, PI] whose difference is below -PI: -3 rad wished,
      3 rad current. The helper answers more than a half turn. */
  lemma BestDeltaOfHeadingsCanLeaveRange()
    ensures BestDeltaAngle(-3.0 - 3.0) > PI
    ensures -PI < ShortestDelta(-3.0 - 3.0) <= PI
  {
  }

  /** holonomic_angle_2_x_rad: the rotation from the current heading to the
      wished angle a. */
  function AngleToX(a: real, heading: real): (r: real)
    ensures -PI <= a - heading <= 3.0 * PI ==>
              -PI <= r <= PI && (r == a - heading || r == a - heading - TWO_PI)
    ensures a - heading < -PI ==> r > 3.0 * PI
  {
    BestDeltaAngle(a - heading)
  }

  /** holonomic_angle_2_speed_rad: the rotation from the current heading to
      the heading of the speed vector plus an offset. */
  function AngleToSpeed(speedHeading: real, offset: real, heading: real): (r: real)
    ensures -PI <= speedHeading + offset - heading <= 3.0 * PI ==>
              -PI <= r <= PI &&
              (r == speedHeading + offset - heading || r == speedHeading + offset - heading - TWO_PI)
    ensures speedHeading + offset - heading < -PI ==> r > 3.0 * PI
  {
    BestDeltaAngle((speedHeading + offset) - heading)
  }

  /** holonomic_angle_facepoint_rad. The code takes the angle of the point's
      own position vector (from the origin, not from the robot); that angle
      is the input pointAngle. */
  function AngleFacepoint(pointAngle: real, heading: real): (r: real)
    ensures -PI <= pointAngle - heading <= PI ==> r == pointAngle - heading
    ensures PI < pointAngle - heading <= 3.0 * PI ==> r == pointAngle - heading - TWO_PI && -PI < r
    ensures pointAngle - heading < -PI ==> r > 3.0 * PI
  {
    BestDeltaAngle(pointAngle - heading)
  }
}
