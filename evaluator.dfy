// The trajectory manager's state as a value, and what each operation of
// trajectory_manager_utils.c and each documented command of
// trajectory_manager.h does to it. The class in manager.dfy is proved to
// follow these functions; the properties of the manager are proved here.
module Evaluator {
  import opened Angles
  import opened Trajectory
  import opened Tasks
  import opened Windows
  import opened Consigns

  /** struct h_trajectory (the fields the core uses), the two process-wide
      statics of the utils file (prev_speed, keyframe), and the log of calls
      made to the drive and the scheduler. */
  datatype Snapshot = Snapshot(
    moving: MovingState,
    turning: TurningState,
    xyTarget: Point,
    aTarget: real,
    circleCenter: Point,
    arcAngle: real,
    radius: real,
    point2face: Point,
    dWin: real,
    aWin: real,
    endOfTraj: bool,
    schedulerTask: int,
    prevSpeed: int,
    keyframe: Point,
    effects: seq<Effect>)

  /** The manager's invariant: the ramp's speed is a multiple of the step
      within the band the consigns keep it in (so int32 never wraps), the
      task handle fits an int8_t, and scheduler_task is -1 exactly when no
      registration of the manager is live; otherwise it is the live one. */
  predicate Inv(st: Snapshot)
  {
    && RampBand(st.prevSpeed)
    && -1 <= st.schedulerTask <= 127
    && LiveTasks(st.effects) == (if st.schedulerTask == -1 then {} else {st.schedulerTask})
  }

  /** The trajectory is over: flagged, and nothing left registered. */
  predicate Finished(st: Snapshot)
  {
    st.endOfTraj && st.schedulerTask == -1 && LiveTasks(st.effects) == {}
  }

  /** The initial state: both axes idle, no task, the statics as initialised. */
  function Initial(): (st: Snapshot)
    ensures Inv(st) && !st.endOfTraj
  {
    Snapshot(MovingIdle, TurningIdle, Point(0.0, 0.0), 0.0, Point(0.0, 0.0), 0.0, 0.0,
             Point(0.0, 0.0), 0.0, 0.0, false, -1, 0, Point(-1.0, -1.0), [])
  }

  function DriveCalls(speed: int, direction: int, omega: int): seq<Effect>
  {
    [SetSpeed(speed), SetDirection(direction), SetRotationSpeed(omega)]
  }

  /** set_consigns_to_rsh: the speed goes through the ramp, direction and
      angular speed go out unchanged, and nothing but the ramp's speed and
      the drive changes. */
  function IssueSpec(st: Snapshot, speed: int, direction: int, omega: int): (n: Snapshot)
    ensures n.prevSpeed == Ramp(st.prevSpeed, speed)
    ensures IntAbs(n.prevSpeed - st.prevSpeed) == RAMP_STEP
    ensures n.effects == st.effects + DriveCalls(n.prevSpeed, direction, omega)
    ensures n == st.(prevSpeed := n.prevSpeed, effects := n.effects)
  {
    var speed' := Ramp(st.prevSpeed, speed);
    st.(prevSpeed := speed', effects := st.effects + DriveCalls(speed', direction, omega))
  }

  /** The drive calls of holonomic_delete_event: set_consigns_to_rsh with a
      zero speed from a zeroed ramp, which the ramp turns into 20, then an
      explicit zero speed. */
  function StopCalls(thetaV: int): seq<Effect>
  {
    DriveCalls(RAMP_STEP, thetaV, 0) + [SetSpeed(0)]
  }

  /** holonomic_delete_event. prev_speed is zeroed and then ramped once, so it
      ends at 20; end_of_traj is set; the scheduler deletion happens only when
      a task is recorded, and scheduler_task becomes -1. */
  function DeleteSpec(st: Snapshot, thetaV: int): (n: Snapshot)
    ensures n.schedulerTask == -1 && n.endOfTraj && n.prevSpeed == RAMP_STEP
    ensures n.effects == st.effects + StopCalls(thetaV) +
                         (if st.schedulerTask != -1 then [DelEvent(st.schedulerTask)] else [])
    ensures n == st.(schedulerTask := -1, endOfTraj := true, prevSpeed := RAMP_STEP, effects := n.effects)
  {
    var cleared := st.(prevSpeed := 0, endOfTraj := true);
    var stopped := IssueSpec(cleared, 0, thetaV, 0);
    var silenced := stopped.(effects := stopped.effects + [SetSpeed(0)]);
    if silenced.schedulerTask != -1 then
      silenced.(effects := silenced.effects + [DelEvent(silenced.schedulerTask)], schedulerTask := -1)
    else silenced
  }

  /** holonomic_schedule_event: a no-op when a task is recorded; otherwise
      one registration at priority 30, whose handle (possibly -1, a refusal)
      is recorded. */
  function ScheduleSpec(st: Snapshot, handle: int): (n: Snapshot)
    ensures st.schedulerTask != -1 ==> n == st
    ensures st.schedulerTask == -1 ==>
              n == st.(schedulerTask := handle, effects := st.effects + [AddEvent(handle, EVENT_PRIORITY)])
  {
    if st.schedulerTask != -1 then st
    else st.(schedulerTask := handle, effects := st.effects + [AddEvent(handle, EVENT_PRIORITY)])
  }

  /** The effect of the moving switch on the state: on a circle, the
      keyframe is computed once (while its x is still negative) and becomes
      the target; otherwise nothing changes. */
  function AfterMovingSwitch(st: Snapshot, r: Reading): (s: Snapshot)
    ensures st.moving != MovingCircle ==> s == st
    ensures st.moving == MovingCircle ==> s.xyTarget == s.keyframe
    ensures st.moving == MovingCircle && 0.0 <= st.keyframe.x ==> s.keyframe == st.keyframe
    ensures st.moving == MovingCircle && st.keyframe.x < 0.0 ==> s.keyframe == r.keyframe
    ensures s == st.(keyframe := s.keyframe, xyTarget := s.xyTarget)
  {
    if st.moving == MovingCircle then
      var kf := if st.keyframe.x < 0.0 then r.keyframe else st.keyframe;
      st.(keyframe := kf, xyTarget := kf)
    else st
  }

  /** The direction consign: the angle toward the target on either moving
      state, 0 when the moving axis is idle. */
  function DirectionConsign(m: MovingState, r: Reading): int
  {
    if m == MovingIdle then 0 else r.direction
  }

  /** The second gate: an idle moving axis inside the angle window ends the
      turning axis; otherwise the consigns go to the drive. */
  function AngleGate(st: Snapshot, r: Reading, speed: int, direction: int, omega: int): Snapshot
  {
    if st.moving == MovingIdle && InAngleWindow(st.aTarget, r.heading, st.aWin) then
      DeleteSpec(st.(turning := TurningIdle), r.thetaV)
    else IssueSpec(st, speed, direction, omega)
  }

  /** The first gate's condition: turning idle and inside the distance window
      of the target as it stands after the moving switch. */
  predicate InXyGate(st: Snapshot, r: Reading)
  {
    st.turning == TurningIdle && WithinDistance(r.pos, AfterMovingSwitch(st, r).xyTarget, st.dWin)
  }

  /** holonomic_trajectory_manager_event: one tick. A tick only appends to
      the call log; it never changes the goals or the windows; each axis
      either keeps its state or goes idle; the task is either kept or
      deleted; and the end flag, once raised, stays raised. */
  function StepSpec(st: Snapshot, r: Reading): (n: Snapshot)
    ensures |st.effects| <= |n.effects| && n.effects[..|st.effects|] == st.effects
    ensures n.aTarget == st.aTarget && n.circleCenter == st.circleCenter && n.arcAngle == st.arcAngle
    ensures n.radius == st.radius && n.point2face == st.point2face
    ensures n.dWin == st.dWin && n.aWin == st.aWin
    ensures n.moving == st.moving || n.moving == MovingIdle
    ensures n.turning == st.turning || n.turning == TurningIdle
    ensures n.schedulerTask == st.schedulerTask || n.schedulerTask == -1
    ensures st.endOfTraj ==> n.endOfTraj
  {
    var speed := SpeedConsign(st.moving, r.distance2target);
    var direction := DirectionConsign(st.moving, r);
    var omega := OmegaConsign(st.turning, st.aTarget, r.heading);
    var s1 := AfterMovingSwitch(st, r);
    if InXyGate(st, r) then
      if st.moving == MovingCircle then
        var s2 := s1.(keyframe := r.keyframe);
        if WithinDistance(r.arrival, r.pos, st.dWin) then DeleteSpec(s2, r.thetaV) else s2
      else if st.prevSpeed < SETTLED_SPEED then
        DeleteSpec(s1.(moving := MovingIdle), r.thetaV)
      else AngleGate(s1, r, 0, direction, omega)
    else AngleGate(s1, r, speed, direction, omega)
  }

  /** Successive ticks. */
  function Run(st: Snapshot, rs: seq<Reading>): Snapshot
    decreases |rs|
  {
    if rs == [] then st else Run(StepSpec(st, rs[0]), rs[1..])
  }

  // ---------------------------------------------------------------------
  // Commands of trajectory_manager.h. Their bodies are not part of this
  // model; these follow their documentation: each sets the goal of one axis,
  // clears the end-of-trajectory flag and schedules the event.

  /** holonomic_trajectory_set_windows */
  function WindowsSpec(st: Snapshot, dWin: real, aWin: real): (n: Snapshot)
    ensures n.dWin == dWin && n.aWin == aWin
    ensures n == st.(dWin := n.dWin, aWin := n.aWin)
  {
    st.(dWin := dWin, aWin := aWin)
  }

  /** holonomic_trajectory_moving_straight_goto_xy_abs: mixed with the
      current turning command. */
  function GotoSpec(st: Snapshot, x: real, y: real, handle: int): (n: Snapshot)
    ensures n.moving == MovingStraight && n.xyTarget == Point(x, y) && !n.endOfTraj
    ensures n.turning == st.turning && n.aTarget == st.aTarget
    ensures n.schedulerTask == if st.schedulerTask != -1 then st.schedulerTask else handle
  {
    ScheduleSpec(st.(moving := MovingStraight, xyTarget := Point(x, y), endOfTraj := false), handle)
  }

  /** holonomic_trajectory_moving_circle: mixed with the current turning
      command. The radius is the robot's distance to the center, an input.
      The keyframe is a static of the event function and is not reset. */
  function CircleSpec(st: Snapshot, center: Point, arcAngle: real, radius: real, handle: int): (n: Snapshot)
    ensures n.moving == MovingCircle && n.circleCenter == center && n.arcAngle == arcAngle
    ensures n.radius == radius && !n.endOfTraj
    ensures n.turning == st.turning && n.aTarget == st.aTarget && n.keyframe == st.keyframe
    ensures n.schedulerTask == if st.schedulerTask != -1 then st.schedulerTask else handle
  {
    ScheduleSpec(st.(moving := MovingCircle, circleCenter := center, arcAngle := arcAngle,
                     radius := radius, endOfTraj := false), handle)
  }

  /** holonomic_trajectory_turning_cap: mixed with the current moving command. */
  function CapSpec(st: Snapshot, cap: real, handle: int): (n: Snapshot)
    ensures n.turning == TurningCap && n.aTarget == cap && !n.endOfTraj
    ensures n.moving == st.moving && n.xyTarget == st.xyTarget
    ensures n.schedulerTask == if st.schedulerTask != -1 then st.schedulerTask else handle
  {
    ScheduleSpec(st.(turning := TurningCap, aTarget := cap, endOfTraj := false), handle)
  }

  // ---------------------------------------------------------------------
  // The invariant.

  lemma IssueKeepsInv(st: Snapshot, speed: int, direction: int, omega: int)
    requires Inv(st) && 0 <= speed <= SPEED_ROBOT
    ensures Inv(IssueSpec(st, speed, direction, omega))
  {
    RampStaysInBand(st.prevSpeed, speed);
    DriveCallsKeepTasks(st.effects, DriveCalls(Ramp(st.prevSpeed, speed), direction, omega));
  }

  /** Deleting ends every registration, whatever the state. */
  lemma DeleteFinishes(st: Snapshot, thetaV: int)
    requires Inv(st)
    ensures Inv(DeleteSpec(st, thetaV)) && Finished(DeleteSpec(st, thetaV))
  {
    var stopped := st.effects + StopCalls(thetaV);
    DriveCallsKeepTasks(st.effects, StopCalls(thetaV));
    if st.schedulerTask != -1 {
      assert DeleteSpec(st, thetaV).effects == stopped + [DelEvent(st.schedulerTask)];
      LiveTasksAppend(stopped, DelEvent(st.schedulerTask));
    } else {
      assert DeleteSpec(st, thetaV).effects == stopped;
    }
  }

  /** Deleting twice deregisters nothing the second time: the second call
      only repeats the drive's stop calls. */
  lemma DeleteTwice(st: Snapshot, thetaV: int)
    ensures var once := DeleteSpec(st, thetaV);
            DeleteSpec(once, thetaV) == once.(effects := once.effects + StopCalls(thetaV))
  {
  }

  lemma ScheduleKeepsInv(st: Snapshot, handle: int)
    requires Inv(st) && -1 <= handle <= 127
    ensures Inv(ScheduleSpec(st, handle))
  {
    if st.schedulerTask == -1 {
      LiveTasksAppend(st.effects, AddEvent(handle, EVENT_PRIORITY));
    }
  }

  /** Scheduling is idempotent: once a task is recorded, scheduling again
      changes nothing, whatever handle the scheduler would give. */
  lemma ScheduleIdempotent(st: Snapshot, handle: int, again: int)
    requires handle != -1
    ensures ScheduleSpec(ScheduleSpec(st, handle), again) == ScheduleSpec(st, handle)
  {
  }

  /** Every tick keeps the invariant. */
  lemma StepKeepsInv(st: Snapshot, r: Reading)
    requires Inv(st)
    ensures Inv(StepSpec(st, r))
  {
    var s1 := AfterMovingSwitch(st, r);
    assert Inv(s1);
    if InXyGate(st, r) && st.moving == MovingCircle {
      if WithinDistance(r.arrival, r.pos, st.dWin) {
        DeleteFinishes(s1.(keyframe := r.keyframe), r.thetaV);
      }
    } else if InXyGate(st, r) && st.prevSpeed < SETTLED_SPEED {
      DeleteFinishes(s1.(moving := MovingIdle), r.thetaV);
    } else {
      var speed := if InXyGate(st, r) then 0 else SpeedConsign(st.moving, r.distance2target);
      AngleGateKeepsInv(s1, r, speed, DirectionConsign(st.moving, r),
                        OmegaConsign(st.turning, st.aTarget, r.heading));
    }
  }

  lemma AngleGateKeepsInv(st: Snapshot, r: Reading, speed: int, direction: int, omega: int)
    requires Inv(st) && 0 <= speed <= SPEED_ROBOT
    ensures Inv(AngleGate(st, r, speed, direction, omega))
  {
    if st.moving == MovingIdle && InAngleWindow(st.aTarget, r.heading, st.aWin) {
      DeleteFinishes(st.(turning := TurningIdle), r.thetaV);
    } else {
      IssueKeepsInv(st, speed, direction, omega);
    }
  }

  lemma CommandsKeepInv(st: Snapshot, x: real, y: real, center: Point, arcAngle: real,
                        radius: real, cap: real, dWin: real, aWin: real, handle: int)
    requires Inv(st) && -1 <= handle <= 127
    ensures Inv(GotoSpec(st, x, y, handle))
    ensures Inv(CircleSpec(st, center, arcAngle, radius, handle))
    ensures Inv(CapSpec(st, cap, handle))
    ensures Inv(WindowsSpec(st, dWin, aWin))
  {
    ScheduleKeepsInv(st.(moving := MovingStraight, xyTarget := Point(x, y), endOfTraj := false), handle);
    ScheduleKeepsInv(st.(moving := MovingCircle, circleCenter := center, arcAngle := arcAngle,
                         radius := radius, endOfTraj := false), handle);
    ScheduleKeepsInv(st.(turning := TurningCap, aTarget := cap, endOfTraj := false), handle);
  }

  /** The flag is only ever raised together with the deregistration. */
  lemma StepFinishDisarms(st: Snapshot, r: Reading)
    requires Inv(st) && !st.endOfTraj && StepSpec(st, r).endOfTraj
    ensures Finished(StepSpec(st, r))
  {
    var s1 := AfterMovingSwitch(st, r);
    if InXyGate(st, r) && st.moving == MovingCircle {
      DeleteFinishes(s1.(keyframe := r.keyframe), r.thetaV);
    } else if InXyGate(st, r) && st.prevSpeed < SETTLED_SPEED {
      DeleteFinishes(s1.(moving := MovingIdle), r.thetaV);
    } else {
      DeleteFinishes(s1.(turning := TurningIdle), r.thetaV);
    }
  }
}
