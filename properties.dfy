// What one tick and a run of ticks do: which gate ends which axis, what is
// sent to the drive, and when the periodic event goes away.
module TrajectoryProperties {
  import opened Trajectory
  import opened Tasks
  import opened Windows
  import opened Consigns
  import opened Evaluator

  /** When neither gate fires, set_consigns_to_rsh runs exactly once with the
      consigns of the two switches, and neither axis nor the task changes. */
  lemma NoGateIssuesConsigns(st: Snapshot, r: Reading)
    requires !InXyGate(st, r)
    requires !(st.moving == MovingIdle && InAngleWindow(st.aTarget, r.heading, st.aWin))
    ensures var n := StepSpec(st, r);
            && n.effects == st.effects + DriveCalls(Ramp(st.prevSpeed, SpeedConsign(st.moving, r.distance2target)),
                                                    DirectionConsign(st.moving, r),
                                                    OmegaConsign(st.turning, st.aTarget, r.heading))
            && n.moving == st.moving && n.turning == st.turning
            && n.schedulerTask == st.schedulerTask && n.endOfTraj == st.endOfTraj
  {
  }

  /** On a circle with the turning axis idle and the keyframe reached, the
      tick sends no consign and keeps the circle: it only recomputes the
      keyframe, and deletes the event when the arc's arrival point is within
      d_win. */
  lemma CircleInWindowIssuesNothing(st: Snapshot, r: Reading)
    requires st.moving == MovingCircle && InXyGate(st, r)
    ensures var n := StepSpec(st, r);
            && n.moving == MovingCircle && n.turning == TurningIdle && n.keyframe == r.keyframe
            && (WithinDistance(r.arrival, r.pos, st.dWin) ==>
                  n.schedulerTask == -1 && n.endOfTraj &&
                  n.effects == st.effects + StopCalls(r.thetaV) +
                               (if st.schedulerTask != -1 then [DelEvent(st.schedulerTask)] else []))
            && (!WithinDistance(r.arrival, r.pos, st.dWin) ==>
                  n.effects == st.effects && n.schedulerTask == st.schedulerTask)
  {
  }

  /** In a straight line with the turning axis idle, inside the window and
      still moving (prev_speed >= 20): the speed consign is forced to 0, the
      ramp brakes by one step, and the move is not yet over. */
  lemma StraightInWindowBrakes(st: Snapshot, r: Reading)
    requires Inv(st)
    requires st.moving == MovingStraight && InXyGate(st, r) && st.prevSpeed >= SETTLED_SPEED
    ensures var n := StepSpec(st, r);
            && n.moving == MovingStraight && n.prevSpeed == st.prevSpeed - RAMP_STEP
            && n.effects == st.effects + DriveCalls(st.prevSpeed - RAMP_STEP, r.direction, 0)
            && n.schedulerTask == st.schedulerTask
  {
  }

  /** With both axes active neither gate can fire: the first needs the
      turning axis idle, the second the moving axis idle. */
  lemma BothAxesActiveKeepRunning(st: Snapshot, r: Reading)
    requires st.moving != MovingIdle && st.turning != TurningIdle
    ensures var n := StepSpec(st, r);
            && n.moving == st.moving && n.turning == st.turning
            && n.schedulerTask == st.schedulerTask && n.endOfTraj == st.endOfTraj
            && |n.effects| == |st.effects| + 3
  {
  }

  /** Hence, once a moving and a turning command are both active, no number of
      ticks ends either of them or deletes the event. */
  lemma {:induction false} BothAxesActiveNeverFinish(st: Snapshot, rs: seq<Reading>)
    requires st.moving != MovingIdle && st.turning != TurningIdle
    ensures var n := Run(st, rs);
            && n.moving == st.moving && n.turning == st.turning
            && n.schedulerTask == st.schedulerTask && n.endOfTraj == st.endOfTraj
    decreases |rs|
  {
    if rs != [] {
      BothAxesActiveKeepRunning(st, rs[0]);
      BothAxesActiveNeverFinish(StepSpec(st, rs[0]), rs[1..]);
    }
  }

  /** A straight move whose turning axis is idle, kept inside the window,
      brakes one ramp step per tick and ends on the tick after the ramp
      reaches 0: prev_speed/20 + 1 ticks in all. */
  lemma {:induction false} StraightArrivalSettles(st: Snapshot, rs: seq<Reading>)
    requires Inv(st) && st.moving == MovingStraight && st.turning == TurningIdle
    requires |rs| == st.prevSpeed / RAMP_STEP + 1
    requires forall i :: 0 <= i < |rs| ==> WithinDistance(rs[i].pos, st.xyTarget, st.dWin)
    ensures Finished(Run(st, rs)) && Run(st, rs).moving == MovingIdle
    decreases |rs|
  {
    var n := StepSpec(st, rs[0]);
    assert InXyGate(st, rs[0]);
    if st.prevSpeed < SETTLED_SPEED {
      DeleteFinishes(st.(moving := MovingIdle), rs[0].thetaV);
      assert rs[1..] == [];
    } else {
      StraightInWindowBrakes(st, rs[0]);
      StepKeepsInv(st, rs[0]);
      assert n.turning == TurningIdle && n.xyTarget == st.xyTarget && n.dWin == st.dWin;
      assert n.prevSpeed / RAMP_STEP + 1 == |rs[1..]|;
      forall i | 0 <= i < |rs[1..]|
        ensures WithinDistance(rs[1..][i].pos, n.xyTarget, n.dWin)
      {
        assert rs[1..][i] == rs[i + 1];
      }
      StraightArrivalSettles(n, rs[1..]);
    }
  }

  /** Go-to-point schedules the event, and the event deletes itself once the
      point is reached and the robot has braked. */
  lemma GotoReachedDeletesEvent(st: Snapshot, x: real, y: real, handle: int, rs: seq<Reading>)
    requires Inv(st) && st.turning == TurningIdle && 0 <= handle <= 127
    requires |rs| == st.prevSpeed / RAMP_STEP + 1
    requires forall i :: 0 <= i < |rs| ==> WithinDistance(rs[i].pos, Point(x, y), st.dWin)
    ensures GotoSpec(st, x, y, handle).schedulerTask != -1
    ensures Finished(Run(GotoSpec(st, x, y, handle), rs))
  {
    var armed := GotoSpec(st, x, y, handle);
    CommandsKeepInv(st, x, y, Point(0.0, 0.0), 0.0, 0.0, 0.0, 0.0, 0.0, handle);
    StraightArrivalSettles(armed, rs);
  }

  /** Holding a cap with the moving axis idle: the turning axis ends, and the
      event is deleted, exactly on the tick the heading is inside the angle
      window; until then the bang-bang angular speed goes to the drive. */
  lemma CapHoldsUntilAligned(st: Snapshot, cap: real, handle: int, r: Reading)
    requires Inv(st) && st.moving == MovingIdle && -1 <= handle <= 127
    ensures var n := StepSpec(CapSpec(st, cap, handle), r);
            && (n.turning == TurningIdle <==> InAngleWindow(cap, r.heading, st.aWin))
            && (InAngleWindow(cap, r.heading, st.aWin) ==> Finished(n))
            && (!InAngleWindow(cap, r.heading, st.aWin) ==>
                  n.effects == CapSpec(st, cap, handle).effects +
                               DriveCalls(Ramp(st.prevSpeed, 0), 0, OmegaConsign(TurningCap, cap, r.heading)))
  {
    var armed := CapSpec(st, cap, handle);
    CommandsKeepInv(st, 0.0, 0.0, Point(0.0, 0.0), 0.0, 0.0, cap, 0.0, 0.0, handle);
    DeleteFinishes(armed.(turning := TurningIdle), r.thetaV);
  }

  /** Inside the windows the trajectory is finished on this tick: a settled
      straight (or idle) move inside the distance window with the turning axis
      idle, or an idle move inside the angle window. */
  lemma InsideWindowsFinishes(st: Snapshot, dWin: real, aWin: real, r: Reading)
    requires Inv(st) && st.moving != MovingCircle
    requires || (st.turning == TurningIdle && WithinDistance(r.pos, st.xyTarget, dWin) && st.prevSpeed < SETTLED_SPEED)
             || (st.moving == MovingIdle && InAngleWindow(st.aTarget, r.heading, aWin))
    ensures Finished(StepSpec(WindowsSpec(st, dWin, aWin), r))
  {
    var w := WindowsSpec(st, dWin, aWin);
    DeleteFinishes(w.(moving := MovingIdle), r.thetaV);
    DeleteFinishes(w.(turning := TurningIdle), r.thetaV);
  }
}
