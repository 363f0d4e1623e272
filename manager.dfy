// The trajectory manager as the C code runs it: one mutable record
// (struct h_trajectory) updated in place by the periodic event and by the
// commands, together with the utils file's process-wide statics prev_speed
// and keyframe. Each method is proved to follow its function in Evaluator.
module Manager {
  import opened Angles
  import opened Trajectory
  import opened Windows
  import opened Consigns
  import opened Evaluator

  class HTrajectory {
    var movingState: MovingState
    var turningState: TurningState
    var xyTarget: Point
    var aTarget: real
    var circleCenter: Point
    var arcAngle: real
    var radius: real
    var point2face: Point
    var dWin: real
    var aWin: real
    var endOfTraj: bool
    var schedulerTask: int
    /** static int prev_speed */
    var prevSpeed: int
    /** static vect2_cart keyframe */
    var keyframe: Point
    /** The calls made to the drive and the scheduler so far. */
    var effects: seq<Effect>

    function State(): Snapshot
      reads this
    {
      Snapshot(movingState, turningState, xyTarget, aTarget, circleCenter, arcAngle, radius,
               point2face, dWin, aWin, endOfTraj, schedulerTask, prevSpeed, keyframe, effects)
    }

    ghost predicate Valid()
      reads this
    {
      Inv(State())
    }

    /** holonomic_trajectory_init, with the statics at their initial values. */
    constructor Init()
      ensures State() == Initial() && Valid()
    {
      movingState, turningState := MovingIdle, TurningIdle;
      xyTarget, aTarget := Point(0.0, 0.0), 0.0;
      circleCenter, arcAngle, radius := Point(0.0, 0.0), 0.0, 0.0;
      point2face := Point(0.0, 0.0);
      dWin, aWin := 0.0, 0.0;
      endOfTraj := false;
      schedulerTask := -1;
      prevSpeed := 0;
      keyframe := Point(-1.0, -1.0);
      effects := [];
    }

    /** holonomic_robot_in_xy_window */
    function RobotInXyWindow(pos: Point, d: real): (inside: bool)
      reads this
      ensures inside ==> 0.0 < d && Abs(pos.x - xyTarget.x) < d && Abs(pos.y - xyTarget.y) < d
    {
      WithinDistance(pos, xyTarget, d)
    }

    /** Whatever non-negative number dist squares to the squared distance
        from the robot to the target, the robot is in the window exactly
        when dist is below d. */
    lemma RobotInXyWindowIsStrict(pos: Point, d: real, dist: real)
      requires 0.0 <= dist && dist * dist == Dist2(pos, xyTarget)
      ensures RobotInXyWindow(pos, d) <==> dist < d
    {
      WithinDistanceIsStrict(pos, xyTarget, d, dist);
    }

    /** holonomic_end_of_traj */
    function EndOfTraj(): bool
      reads this
    {
      endOfTraj
    }

    /** holonomic_do_ramp */
    method DoRamp(consign: int) returns (speed: int)
      modifies this
      ensures speed == prevSpeed
      ensures prevSpeed == old(prevSpeed) + (if consign >= old(prevSpeed) then RAMP_STEP else -RAMP_STEP)
      ensures State() == old(State()).(prevSpeed := speed)
    {
      var step := RAMP_STEP;
      prevSpeed := prevSpeed + (if consign >= prevSpeed then step else -step);
      speed := prevSpeed;
    }

    /** set_consigns_to_rsh */
    method SetConsignsToRsh(speed: int, direction: int, omega: int)
      modifies this
      ensures State() == IssueSpec(old(State()), speed, direction, omega)
    {
      var ramped := DoRamp(speed);
      effects := effects + [SetSpeed(ramped)];
      effects := effects + [SetDirection(direction)];
      effects := effects + [SetRotationSpeed(omega)];
    }

    /** holonomic_delete_event; thetaV is the speed-vector heading it reads. */
    method DeleteEvent(thetaV: int)
      modifies this
      ensures State() == DeleteSpec(old(State()), thetaV)
      ensures old(Valid()) ==> Valid() && Finished(State())
    {
      ghost var before := State();
      prevSpeed := 0;
      endOfTraj := true;
      ghost var cleared := State();
      SetConsignsToRsh(0, thetaV, 0);
      ghost var stopped := IssueSpec(cleared, 0, thetaV, 0);
      effects := effects + [SetSpeed(0)];
      ghost var silenced := State();
      assert silenced == stopped.(effects := stopped.effects + [SetSpeed(0)]);
      if schedulerTask != -1 {
        effects := effects + [DelEvent(schedulerTask)];
        schedulerTask := -1;
        assert State() == silenced.(effects := silenced.effects + [DelEvent(silenced.schedulerTask)],
                                    schedulerTask := -1);
      }
      if Inv(before) {
        DeleteFinishes(before, thetaV);
      }
    }

    /** holonomic_schedule_event; handle is what the scheduler returns if it
        is asked (an index, or -1 when it refuses). */
    method ScheduleEvent(handle: int)
      requires -1 <= handle <= 127
      modifies this
      ensures State() == ScheduleSpec(old(State()), handle)
      ensures old(Valid()) ==> Valid()
    {
      ghost var before := State();
      if schedulerTask != -1 {
        // already scheduled: only a debug message in the source
      } else {
        schedulerTask := handle;
        effects := effects + [AddEvent(handle, EVENT_PRIORITY)];
      }
      if Inv(before) {
        ScheduleKeepsInv(before, handle);
      }
    }

    /** The moving switch of holonomic_trajectory_manager_event: the speed
        and direction consigns, and on a circle the keyframe and target. */
    method MovingSwitch(r: Reading) returns (speed: int, direction: int)
      modifies this
      ensures State() == AfterMovingSwitch(old(State()), r)
      ensures speed == SpeedConsign(old(movingState), r.distance2target)
      ensures direction == DirectionConsign(old(movingState), r)
    {
      speed, direction := 0, 0;
      match movingState {
        case MovingStraight =>
          direction := r.direction;
          speed := SPEED_ROBOT;
          if r.distance2target < TAPER_DISTANCE {
            speed := 2 * r.distance2target;
          }
        case MovingCircle =>
          if keyframe.x < 0.0 {
            keyframe := r.keyframe;
          }
          xyTarget := keyframe;
          direction := r.direction;
          speed := SPEED_ROBOT / 5;
        case MovingIdle =>
      }
    }

    /** The turning switch of holonomic_trajectory_manager_event. */
    method TurningSwitch(heading: real) returns (omega: int)
      ensures omega == OmegaConsign(turningState, aTarget, heading)
    {
      omega := 0;
      match turningState {
        case TurningCap =>
          if aTarget - heading < 0.0 || aTarget - heading > PI {
            omega := CAP_OMEGA;
          } else {
            omega := -CAP_OMEGA;
          }
        case TurningSpeedOffset =>
          omega := PLACEHOLDER_OMEGA;
        case TurningFacepoint =>
          omega := PLACEHOLDER_OMEGA;
        case TurningIdle =>
      }
    }

    /** holonomic_trajectory_manager_event: one tick, on the reading r. */
    method Event(r: Reading)
      modifies this
      ensures State() == StepSpec(old(State()), r)
      ensures old(Valid()) ==> Valid()
    {
      ghost var before := State();
      if Inv(before) {
        StepKeepsInv(before, r);
      }
      var sConsign, aConsign := MovingSwitch(r);
      var oConsign := TurningSwitch(r.heading);
      ghost var switched := State();

      if turningState == TurningIdle && RobotInXyWindow(r.pos, dWin) {
        if movingState == MovingCircle {
          keyframe := r.keyframe;
          assert State() == switched.(keyframe := r.keyframe);
          if WithinDistance(r.arrival, r.pos, dWin) {
            DeleteEvent(r.thetaV);
          }
          return;
        }
        if prevSpeed < SETTLED_SPEED {
          movingState := MovingIdle;
          assert State() == switched.(moving := MovingIdle);
          DeleteEvent(r.thetaV);
          return;
        } else {
          sConsign := 0;
        }
      }
      if movingState == MovingIdle && InAngleWindow(aTarget, r.heading, aWin) {
        turningState := TurningIdle;
        assert State() == switched.(turning := TurningIdle);
        DeleteEvent(r.thetaV);
        return;
      }
      SetConsignsToRsh(sConsign, aConsign, oConsign);
    }

    /** holonomic_trajectory_set_windows */
    method SetWindows(d: real, a: real)
      modifies this
      ensures State() == WindowsSpec(old(State()), d, a)
      ensures old(Valid()) ==> Valid()
    {
      dWin, aWin := d, a;
    }

    /** holonomic_trajectory_moving_straight_goto_xy_abs */
    method GotoXyAbs(x: real, y: real, handle: int)
      requires -1 <= handle <= 127
      modifies this
      ensures State() == GotoSpec(old(State()), x, y, handle)
      ensures old(Valid()) ==> Valid()
    {
      xyTarget := Point(x, y);
      movingState := MovingStraight;
      endOfTraj := false;
      assert State() == old(State()).(moving := MovingStraight, xyTarget := Point(x, y), endOfTraj := false);
      ScheduleEvent(handle);
    }

    /** holonomic_trajectory_moving_circle; radius is the robot's distance to
        the center when the command is given. */
    method MoveCircle(center: Point, arc: real, dist: real, handle: int)
      requires -1 <= handle <= 127
      modifies this
      ensures State() == CircleSpec(old(State()), center, arc, dist, handle)
      ensures old(Valid()) ==> Valid()
    {
      circleCenter := center;
      arcAngle := arc;
      radius := dist;
      movingState := MovingCircle;
      endOfTraj := false;
      assert State() == old(State()).(moving := MovingCircle, circleCenter := center, arcAngle := arc,
                                      radius := dist, endOfTraj := false);
      ScheduleEvent(handle);
    }

    /** holonomic_trajectory_turning_cap */
    method TurnCap(cap: real, handle: int)
      requires -1 <= handle <= 127
      modifies this
      ensures State() == CapSpec(old(State()), cap, handle)
      ensures old(Valid()) ==> Valid()
    {
      aTarget := cap;
      turningState := TurningCap;
      endOfTraj := false;
      assert State() == old(State()).(turning := TurningCap, aTarget := cap, endOfTraj := false);
      ScheduleEvent(handle);
    }
  }
}
