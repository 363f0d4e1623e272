// Types and constants of the holonomic trajectory manager: the two state
// enums of trajectory_manager.h, the geometry the step reads each tick, and
// the calls it makes to the drive (robot system) and to the scheduler.
module Trajectory {

  /** h_trajectory_moving_state */
  datatype MovingState = MovingStraight | MovingCircle | MovingIdle

  /** h_trajectory_turning_state */
  datatype TurningState = TurningCap | TurningSpeedOffset | TurningFacepoint | TurningIdle

  /** vect2_cart, in mm. */
  datatype Point = Point(x: real, y: real)

  /** Nominal cruise speed, SPEED_ROBOT. */
  const SPEED_ROBOT: int := 500
  /** Below this distance to the target the straight speed tapers to twice the distance. */
  const TAPER_DISTANCE: int := 250
  /** Step of the hand-written speed ramp. */
  const RAMP_STEP: int := 20
  /** Last issued speed under which a straight move counts as settled. */
  const SETTLED_SPEED: int := 20
  /** Magnitude of the bang-bang angular speed of TURNING_CAP. */
  const CAP_OMEGA: int := 50
  /** Angular speed issued in TURNING_SPEEDOFFSET and TURNING_FACEPOINT. */
  const PLACEHOLDER_OMEGA: int := 1
  /** Priority the periodic event is registered with. */
  const EVENT_PRIORITY: int := 30

  /** Squared Euclidean distance. */
  function Dist2(p: Point, q: Point): real
  {
    (p.x - q.x) * (p.x - q.x) + (p.y - q.y) * (p.y - q.y)
  }

  /** The calls the manager makes outside itself, in the order made. */
  datatype Effect =
    | SetSpeed(speed: int)            // rsh_set_speed
    | SetDirection(direction: int)    // rsh_set_direction_int
    | SetRotationSpeed(omega: int)    // rsh_set_rotation_speed
    | AddEvent(handle: int, priority: int)  // scheduler_add_periodical_event_priority: the handle it gave, the priority asked
    | DelEvent(handle: int)           // scheduler_del_event

  /** What one tick reads from the position manager, with the trigonometry
      already done:
      - pos, heading: holonomic_position_get_x/y_double and get_a_rad_double;
      - thetaV: holonomic_position_get_theta_v_int, the heading of the speed vector;
      - distance2target: the sqrtf distance from pos to xy_target truncated to int32_t;
      - direction: TO_DEG of the angle of xy_target - pos, with xy_target as it
        stands at the start of the tick;
      - keyframe: the point on the circle, ANGLE_INC (0.05 rad) behind the
        robot's polar angle around circle_center;
      - arrival: the point on the circle, arc_angle behind that polar angle. */
  datatype Reading = Reading(
    pos: Point,
    heading: real,
    thetaV: int,
    distance2target: nat,
    direction: int,
    keyframe: Point,
    arrival: Point)

  /** The two state machines have exactly the states the header lists. */
  lemma StatesAreExhaustive(m: MovingState, t: TurningState)
    ensures m == MovingStraight || m == MovingCircle || m == MovingIdle
    ensures t == TurningCap || t == TurningSpeedOffset || t == TurningFacepoint || t == TurningIdle
    ensures MovingStraight != MovingCircle && MovingCircle != MovingIdle && MovingStraight != MovingIdle
  {
  }
}
