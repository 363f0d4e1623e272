# Holonomic trajectory manager (cvra-modules), modelled in Dafny

This project models the holonomic trajectory manager of the CVRA robot
modules. The manager is one mutable record (`struct h_trajectory`) with two
independent state machines:

- a moving axis: straight line, circle or idle;
- a turning axis: constant cap, speed offset, face point or idle.

A periodic scheduler event, `holonomic_trajectory_manager_event`, runs on
every tick. It computes a speed, a direction and an angular-speed consign
from the two axes. It then checks two arrival gates:

- the distance window, when the turning axis is idle;
- the angle window, when the moving axis is idle.

When a gate fires, the event deletes itself through
`holonomic_delete_event`, and that flags the end of the trajectory.
Otherwise the consigns go to the drive. The speed passes through a
hand-written ramp of 20 per tick on the process-wide `prev_speed`. The
commands (go to a point, circle, cap, windows) set one axis and schedule
the event.

How the project is laid out:

- `trajectory.dfy` (`Trajectory`): the two state enums, points, the
  constants, the calls the manager makes to the drive and to the scheduler
  (`Effect`), and the `Reading` the position manager supplies on each tick.
  The trigonometry (sqrt, atan2, cos, sin, degrees) is done outside the
  model; its results are fields of the reading.
- `angles.dfy` (`Angles`): `holonomic_simple_modulo_2pi`,
  `holonomic_best_delta_angle_rad` and the three wrappers around it. Each is
  compared with a reference definition of what its comment announces.
- `windows.dfy` (`Windows`): the distance window and the angle window.
- `consigns.dfy` (`Consigns`): the speed consign, the angular-speed consign,
  and the ramp `holonomic_do_ramp`.
- `tasks.dfy` (`Tasks`): the scheduler registrations that are live
  according to the manager's call log.
- `evaluator.dfy` (`Evaluator`): the manager's whole state as a value
  (`Snapshot`), one function per operation (tick, delete, schedule, issue
  consigns, commands), and the manager invariant `Inv` with the proofs that
  every operation preserves it. `Inv` holds three facts:
  - the ramp speed is a multiple of 20 in 0..520;
  - `scheduler_task` fits an `int8_t`;
  - `scheduler_task` is -1 exactly when no registration is live, and
    otherwise it is the live one.
- `properties.dfy` (`TrajectoryProperties`): what ticks and runs of ticks
  do. This covers which gate ends which axis, how a straight move brakes
  and settles, and the fact that the event is never deleted while both axes
  are active.
- `manager.dfy` (`Manager`): the class `HTrajectory`. Its fields are the
  record's fields plus the two statics of the utils file (`prev_speed` and
  the event's `keyframe`). Each method updates the fields in place as the C
  code does. Each method is proved to move `State()` exactly as the
  matching `Evaluator` function does, and to keep `Valid()`.
  `holonomic_end_of_traj` is the accessor `EndOfTraj`.

Distances are compared exactly. `vect2_dist_cart(p, q) < d` becomes
`0 < d && Dist2(p, q) < d*d`, and `WithinDistanceIsStrict` proves that this
is the same test over the reals.

## Where the code differs from its comments

The model follows the code. Each difference below is stated by a lemma.

- `holonomic_delete_event` zeroes `prev_speed` and then calls
  `set_consigns_to_rsh(…, 0, …)`. That call ramps the speed once, so
  `prev_speed` ends at 20, not 0 (`DeleteSpec`). The first drive call
  after a delete is therefore a speed of 20. The explicit `rsh_set_speed(0)`
  that follows overrides it.
- The ramp has no clamp (the clamp is commented out). A consign of 5 from
  rest gives 20 (`RampOvershoots`). At its consign the ramp steps 20 above
  it and then back (`RampOscillatesAtConsign`), and it never leaves the
  band of one step around the consign once there (`RampConverges`).
- `holonomic_simple_modulo_2pi` announces a reduction into [-π, π], but it
  corrects by `M_PI_2` (a quarter turn). It agrees with a full-turn
  reduction only on [-π, π] (`SimpleModuloAgreesOnlyInRange`,
  `SimpleModuloLeavesRange`).
- `holonomic_best_delta_angle_rad` returns `2π - a` for `a < -π`, which is
  larger than 3π, instead of `a + 2π`. It picks the shorter rotation exactly
  when `a >= -π` (`BestDeltaIsShortestIff`). Two ordinary headings reach
  the faulty branch (`BestDeltaOfHeadingsCanLeaveRange`).
- The bang-bang turning of `TURNING_CAP` follows the shorter rotation for
  heading errors in [-π, 2π) (`CapFollowsBestDelta`). Below -π it turns the
  long way (`CapBelowMinusPiTurnsTheLongWay`).
- The angle window's `2π - |d_a|` treats every error larger than a full
  turn as inside the window (`AngleWindowBeyondFullTurn`).
- The distance gate needs the turning axis idle, and the angle gate needs
  the moving axis idle. With both axes active, neither gate can fire, so
  the documented "automatically deleted once the point is reached" never
  happens (`BothAxesActiveNeverFinish`).
- The circle's `keyframe` is a static of the event function. The moving
  switch computes it only while its x is negative (`AfterMovingSwitch`).
  Every tick that reaches the circle gate then recomputes it from the pose
  (`CircleInWindowIssuesNothing`). Nothing resets it between commands (see
  the todo at trajectory_manager_utils.c line 147), so a second circle
  command starts from the old keyframe (`CircleSpec`).

## Model

| member | source | states |
|---|---|---|
| Trajectory.StatesAreExhaustive | modules/trajectory_manager/holonomic/trajectory_manager.h:31-42 | the moving axis has exactly three states and the turning axis exactly four |
| Angles.SimpleModulo2Pi | modules/trajectory_manager/holonomic/trajectory_manager_utils.c:202-212 | identity on [-π, π]; outside it, a correction of exactly a quarter turn toward zero |
| Angles.SimpleModuloAgreesOnlyInRange | modules/trajectory_manager/holonomic/trajectory_manager_utils.c:202-212 | equals the announced full-turn reduction if and only if the angle is in [-π, π] |
| Angles.SimpleModuloLeavesRange | modules/trajectory_manager/holonomic/trajectory_manager_utils.c:202-212 | for angles in (3π/2, 3π] the result is still above π, outside the promised range |
| Angles.BestDeltaAngle | modules/trajectory_manager/holonomic/trajectory_manager_utils.c:286-296 | for a in [-π, 3π] the result is a or a - 2π and lies in [-π, π]; below -π the result exceeds 3π |
| Angles.BestDeltaIsShortestIff | modules/trajectory_manager/holonomic/trajectory_manager_utils.c:286-296 | the result is the shorter rotation (reference `ShortestDelta`) if and only if a >= -π |
| Angles.BestDeltaIdempotent | modules/trajectory_manager/holonomic/trajectory_manager_utils.c:287-296 | on [-π, 3π], applying it twice gives the same result as applying it once |
| Angles.BestDeltaOfHeadingsCanLeaveRange | modules/trajectory_manager/holonomic/trajectory_manager_utils.c:287-296 | for the headings -3 and 3 rad the result exceeds π, while the shorter rotation lies in (-π, π] |
| Angles.AngleToX | modules/trajectory_manager/holonomic/trajectory_manager_utils.c:278-284 | the rotation from the heading to the wished angle, in [-π, π] and congruent to the difference when the difference is in [-π, 3π] |
| Angles.AngleToSpeed | modules/trajectory_manager/holonomic/trajectory_manager_utils.c:269-276 | the same bound and congruence for the speed-vector heading plus the offset |
| Angles.AngleFacepoint | modules/trajectory_manager/holonomic/trajectory_manager_utils.c:260-267 | the same for the angle of the point's position vector; exact when the difference is in [-π, π] |
| Windows.WithinDistance | modules/trajectory_manager/holonomic/trajectory_manager_utils.c:155 | never holds for a non-positive window, and inside it the robot is within d of the target on each axis |
| Windows.WithinDistanceIsStrict | modules/trajectory_manager/holonomic/trajectory_manager_utils.c:150-157 | the squared-distance test holds if and only if the Euclidean distance is strictly below d_win |
| Windows.XyWindowExample | modules/trajectory_manager/holonomic/trajectory_manager.h:174-175 | a robot 5 mm from the target is inside a 10 mm window and outside a 4 mm one |
| Windows.ShortestArc | modules/trajectory_manager/holonomic/trajectory_manager_utils.c:159-169 | reference for the angle window: the shorter arc, in [0, π] |
| Windows.InAngleWindow | modules/trajectory_manager/holonomic/trajectory_manager_utils.c:159-169 | within a full turn, the window holds if and only if the shorter arc is below a_win/2 |
| Windows.AngleWindowWrapsAround | modules/trajectory_manager/holonomic/trajectory_manager_utils.c:160-169 | a target and the same target one full turn lower are in the window together or not at all |
| Windows.AngleWindowExample | modules/trajectory_manager/holonomic/trajectory_manager_utils.c:160-169 | a target of 0.05 rad with a heading of 2π - 0.05 rad is inside a 0.3 rad window |
| Windows.AngleWindowBeyondFullTurn | modules/trajectory_manager/holonomic/trajectory_manager_utils.c:164-168 | an error of more than a full turn is inside every window of non-negative width |
| Consigns.SpeedConsign | modules/trajectory_manager/holonomic/trajectory_manager_utils.c:51-79 | the speed is in 0..500; 0 when idle; 100 on a circle; in a straight line it is cruise speed if and only if distance >= 250, and otherwise twice the distance |
| Consigns.StraightSpeedMonotone | modules/trajectory_manager/holonomic/trajectory_manager_utils.c:56-59 | the straight speed never grows as the distance shrinks, and it is 498 just inside the taper distance |
| Consigns.CruiseExactlyWhenFar | modules/trajectory_manager/holonomic/trajectory_manager_utils.c:34-59 | with the distance truncated to an integer, cruise speed is sent if and only if the real distance is at least 250 mm |
| Consigns.OmegaConsign | modules/trajectory_manager/holonomic/trajectory_manager_utils.c:81-98 | the angular speed is 0 if and only if the turning axis is idle; under a cap it is ±50, and +50 exactly when the error is negative or above π; 1 in the other two modes |
| Consigns.CapFollowsBestDelta | modules/trajectory_manager/holonomic/trajectory_manager_utils.c:83-89 | for errors in [-π, 2π), the cap's angular speed is positive if and only if the best delta angle is negative |
| Consigns.CapBelowMinusPiTurnsTheLongWay | modules/trajectory_manager/holonomic/trajectory_manager_utils.c:83-89 | for errors in (-2π, -π) the shorter rotation is positive, yet the cap gives the sign it gives for small negative errors |
| Consigns.Ramp | modules/trajectory_manager/holonomic/trajectory_manager_utils.c:232-242 | one step of exactly 20: up when the consign is at least the previous speed, down otherwise |
| Consigns.RampOvershoots | modules/trajectory_manager/holonomic/trajectory_manager_utils.c:235-239 | without the clamp, a consign of 5 from rest gives 20, and so does a consign of 0 |
| Consigns.RampOscillatesAtConsign | modules/trajectory_manager/holonomic/trajectory_manager_utils.c:237-239 | without the clamp, at its consign the ramp steps 20 above it, and the next tick steps back |
| Consigns.RampOneStep | modules/trajectory_manager/holonomic/trajectory_manager_utils.c:239 | one step closes the gap to the consign by 20, or leaves it at most 20 |
| Consigns.RampConverges | modules/trajectory_manager/holonomic/trajectory_manager_utils.c:232-242 | after n ticks toward a fixed consign, the gap is at most the larger of the first gap minus 20n and 20 |
| Consigns.RampStaysInBand | modules/trajectory_manager/holonomic/trajectory_manager_utils.c:232-242 | fed consigns in 0..500, the ramp keeps a multiple of 20 in 0..520, so the int32_t never wraps |
| Tasks.DriveCallsKeepTasks | modules/trajectory_manager/holonomic/trajectory_manager_utils.c:244-258 | calls to the drive neither add nor delete scheduler registrations |
| Evaluator.Initial | modules/trajectory_manager/holonomic/trajectory_manager.h:87-91 | the initial state satisfies the invariant and is not finished |
| Evaluator.IssueSpec | modules/trajectory_manager/holonomic/trajectory_manager_utils.c:244-258 | the speed becomes the ramp's next step toward the consign (20 up when the consign is at least the previous speed, 20 down otherwise), the drive receives the ramped speed, the direction and the angular speed in that order, and nothing else changes |
| Evaluator.DeleteSpec | modules/trajectory_manager/holonomic/trajectory_manager_utils.c:171-186 | afterwards task -1, end_of_traj set and prev_speed 20; the drive gets the stop calls, then the scheduler deletion only if a task was recorded; nothing else changes |
| Evaluator.ScheduleSpec | modules/trajectory_manager/holonomic/trajectory_manager_utils.c:188-200 | no change when a task is recorded; otherwise one registration, whose handle is recorded |
| Evaluator.AfterMovingSwitch | modules/trajectory_manager/holonomic/trajectory_manager_utils.c:61-69 | on a circle the target becomes the keyframe; a keyframe with negative x is replaced by the one computed from the pose, and one with x >= 0 is kept; other states are unchanged |
| Evaluator.StepSpec | modules/trajectory_manager/holonomic/trajectory_manager_utils.c:21-148 | one tick only appends to the call log, changes neither goals nor windows, leaves each axis in its state or idle, keeps or deletes the task, and never lowers the end flag |
| Evaluator.WindowsSpec | modules/trajectory_manager/holonomic/trajectory_manager.h:115-123 | sets both windows and changes nothing else |
| Evaluator.GotoSpec | modules/trajectory_manager/holonomic/trajectory_manager.h:134-145 | moves straight to (x, y), clears the end flag, keeps the turning command, and schedules the event |
| Evaluator.CircleSpec | modules/trajectory_manager/holonomic/trajectory_manager.h:147-159 | moves on the circle, keeps the turning command and the keyframe, clears the end flag, and schedules the event |
| Evaluator.CapSpec | modules/trajectory_manager/holonomic/trajectory_manager.h:161-168 | turns to the cap, keeps the moving command, clears the end flag, and schedules the event |
| Evaluator.IssueKeepsInv | modules/trajectory_manager/holonomic/trajectory_manager_utils.c:244-258 | issuing a consign in 0..500 keeps the invariant |
| Evaluator.DeleteFinishes | modules/trajectory_manager/holonomic/trajectory_manager_utils.c:172-186 | from any valid state, delete leaves a valid, finished state with nothing registered |
| Evaluator.DeleteTwice | modules/trajectory_manager/holonomic/trajectory_manager_utils.c:172-186 | a second delete only repeats the stop calls to the drive |
| Evaluator.ScheduleKeepsInv | modules/trajectory_manager/holonomic/trajectory_manager_utils.c:189-200 | scheduling keeps the invariant: the recorded task is the live registration |
| Evaluator.ScheduleIdempotent | modules/trajectory_manager/holonomic/trajectory_manager_utils.c:189-200 | once a task is recorded, scheduling again changes nothing |
| Evaluator.StepKeepsInv | modules/trajectory_manager/holonomic/trajectory_manager_utils.c:21-148 | every tick keeps the invariant |
| Evaluator.AngleGateKeepsInv | modules/trajectory_manager/holonomic/trajectory_manager_utils.c:136-146 | the angle gate and the issue of consigns keep the invariant |
| Evaluator.CommandsKeepInv | modules/trajectory_manager/holonomic/trajectory_manager.h:115-168 | every command keeps the invariant |
| Evaluator.StepFinishDisarms | modules/trajectory_manager/holonomic/trajectory_manager_utils.c:99-143 | a tick that raises the end flag also leaves nothing registered |
| TrajectoryProperties.NoGateIssuesConsigns | modules/trajectory_manager/holonomic/trajectory_manager_utils.c:136-146 | when no gate fires, the drive receives exactly the ramped speed, the direction and the angular speed from the switches, and neither the axes nor the task change |
| TrajectoryProperties.CircleInWindowIssuesNothing | modules/trajectory_manager/holonomic/trajectory_manager_utils.c:100-124 | on a circle inside the window, nothing goes to the drive unless the arrival point is reached, in which case the event is deleted; the keyframe is recomputed |
| TrajectoryProperties.StraightInWindowBrakes | modules/trajectory_manager/holonomic/trajectory_manager_utils.c:126-134 | in a straight line inside the window and still moving, the speed consign is 0, the ramp brakes by one step, and the move continues |
| TrajectoryProperties.BothAxesActiveKeepRunning | modules/trajectory_manager/holonomic/trajectory_manager_utils.c:99-146 | with both axes active, a tick changes neither axis nor the task, and it issues the three drive calls |
| TrajectoryProperties.BothAxesActiveNeverFinish | modules/trajectory_manager/holonomic/trajectory_manager_utils.c:99-143 | with both axes active, no run of ticks of any length ends an axis or deletes the event |
| TrajectoryProperties.StraightArrivalSettles | modules/trajectory_manager/holonomic/trajectory_manager_utils.c:126-131 | a straight move kept inside the window ends, finished and with an idle moving axis, after exactly prev_speed/20 + 1 ticks |
| TrajectoryProperties.GotoReachedDeletesEvent | modules/trajectory_manager/holonomic/trajectory_manager.h:134-139 | go-to-point schedules the event, and the event is deleted once the point is reached and the robot has braked |
| TrajectoryProperties.CapHoldsUntilAligned | modules/trajectory_manager/holonomic/trajectory_manager_utils.c:136-143 | with the moving axis idle, a cap ends on a tick if and only if the heading is inside the angle window; until then the bang-bang speed goes to the drive |
| TrajectoryProperties.InsideWindowsFinishes | modules/trajectory_manager/holonomic/trajectory_manager.h:115-117 | after the windows are set, the tick finishes the trajectory when the move is not a circle and either the turning axis is idle, the robot is inside the distance window and prev_speed is below 20, or the moving axis is idle and the heading is inside the angle window |
| Manager.HTrajectory.Init | modules/trajectory_manager/holonomic/trajectory_manager.h:87-91 | both axes idle, no task, prev_speed 0, keyframe (-1, -1), and the invariant holds |
| Manager.HTrajectory.RobotInXyWindow | modules/trajectory_manager/holonomic/trajectory_manager_utils.c:150-157 | inside the window, d_win is positive and the robot is within d_win of the target on each axis |
| Manager.HTrajectory.RobotInXyWindowIsStrict | modules/trajectory_manager/holonomic/trajectory_manager.h:174-175 | for the Euclidean distance from the robot to the target, the window holds if and only if that distance is strictly below d_win |
| Manager.HTrajectory.DoRamp | modules/trajectory_manager/holonomic/trajectory_manager_utils.c:232-242 | prev_speed moves by 20 toward the consign, and the new value is returned; nothing else changes |
| Manager.HTrajectory.SetConsignsToRsh | modules/trajectory_manager/holonomic/trajectory_manager_utils.c:244-258 | the new state is `IssueSpec` of the old one |
| Manager.HTrajectory.DeleteEvent | modules/trajectory_manager/holonomic/trajectory_manager_utils.c:171-186 | the new state is `DeleteSpec` of the old one; from a valid state, it is valid and finished |
| Manager.HTrajectory.ScheduleEvent | modules/trajectory_manager/holonomic/trajectory_manager_utils.c:188-200 | the new state is `ScheduleSpec` of the old one, and validity is kept |
| Manager.HTrajectory.MovingSwitch | modules/trajectory_manager/holonomic/trajectory_manager_utils.c:51-79 | the speed and direction consigns are `SpeedConsign` and `DirectionConsign`; the state becomes `AfterMovingSwitch` |
| Manager.HTrajectory.TurningSwitch | modules/trajectory_manager/holonomic/trajectory_manager_utils.c:81-98 | the angular-speed consign is `OmegaConsign` of the turning state |
| Manager.HTrajectory.Event | modules/trajectory_manager/holonomic/trajectory_manager_utils.c:21-148 | the new state is `StepSpec` of the old one, and validity is kept |
| Manager.HTrajectory.SetWindows | modules/trajectory_manager/holonomic/trajectory_manager.h:115-123 | the new state is `WindowsSpec` of the old one, and validity is kept |
| Manager.HTrajectory.GotoXyAbs | modules/trajectory_manager/holonomic/trajectory_manager.h:134-145 | the new state is `GotoSpec` of the old one, and validity is kept |
| Manager.HTrajectory.MoveCircle | modules/trajectory_manager/holonomic/trajectory_manager.h:147-159 | the new state is `CircleSpec` of the old one, and validity is kept |
| Manager.HTrajectory.TurnCap | modules/trajectory_manager/holonomic/trajectory_manager.h:161-168 | the new state is `CapSpec` of the old one, and validity is kept |

## Left out

- Trigonometry, square roots, `TO_DEG` and the position manager are outside the model. Their results reach each tick as the fields of `Reading`: position, heading, speed-vector heading, truncated distance, direction, keyframe and arrival point.
- Floating-point rounding (`float` and `double`) is not modelled. Angles and coordinates are exact reals.
- The conversion of the distance to `int32_t` is not modelled for distances beyond the int32_t range. `distance2target` is taken as the truncated natural number.
- `holonomic_modulo_2pi` and `holonomic_length_arc_of_circle_pnt` are not modelled. The core step never calls them, and they rely on a float-to-int cast and `fast_acosf`.
- `printf` and `DEBUG` output is not modelled, nor are the unused locals (`target_norm`, `position_norm`, `vec_to_center`), the placeholders `RAD`, `ANG` and `FP`, or the commented-out ramp and clamp code.
- The output fields `speed`, `direction` and `omega` ("not used yet"), the ramp pointers and `cs_hz` are not modelled.
- `holonomic_trajectory_set_ramps`, `holonomic_trajectory_set_robot_params` and `holonomic_trajectory_set_var` are not modelled, because their bodies are not part of this model.
- Manager.HTrajectory.Init: the init body is not part of this model. The initial state is an assumption: both axes idle, no task, zero targets and windows, and the statics at their declared initial values. All-zero fields would instead mean MOVING_STRAIGHT and TURNING_CAP.
- The command bodies (`goto_xy_abs`, `moving_circle`, `turning_cap`, `set_windows`) are not part of this model. Each command sets the goal of its axis. The documentation of `goto_xy_abs` and `moving_circle` says they schedule the event.
- Two behaviours of the commands are assumptions that no documentation states. Every command clears `end_of_traj`, and `turning_cap` also schedules the event.
- The circle's radius is an input: the robot's distance to the center when the command is given.
- `prev_speed` and `keyframe` are statics of the C file (trajectory_manager_utils.c lines 18 and 46), so every `h_trajectory` in a program shares them. Each `HTrajectory` holds its own copy, and `Init` resets them. The model does not capture interference between two managers through these statics.
- The scheduler is outside the model. The handle it returns is a parameter in -1..127 (`int8_t`). A registration records the priority 30 (`EVENT_PRIORITY`), but not the period `TRAJ_EVT_PERIOD`, whose definition is not part of this model.
- Concurrency between the scheduler interrupt and the commands is not modelled. Each operation runs atomically.
- `modules/math/fixed_point/f16_neg.c` is not part of this model. The trajectory manager does not use it.
- Manager.HTrajectory.EndOfTraj: a plain accessor of the end flag; its meaning is stated by `Finished` and by the lemmas in `TrajectoryProperties`.
