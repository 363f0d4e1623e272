// Arrival windows: holonomic_robot_in_xy_window, the distance test on the
// arc's arrival point, and holonomic_robot_in_angle_window.
module Windows {
  import opened Angles
  import opened Trajectory

  /** vect2_dist_cart(p, q) < d. The Euclidean distance is never negative, so
      this is the squared distance compared with d squared, for positive d. */
  function WithinDistance(p: Point, q: Point, d: real): (inside: bool)
    ensures d <= 0.0 ==> !inside
    ensures inside ==> Abs(p.x - q.x) < d && Abs(p.y - q.y) < d
  {
    if 0.0 < d && Dist2(p, q) < d * d then
      SquaredDistanceBoundsAxes(p, q, d);
      true
    else false
  }

  /** Whatever non-negative number squares to the squared distance, the
      window holds exactly when that distance is strictly below d. */
  lemma WithinDistanceIsStrict(p: Point, q: Point, d: real, dist: real)
    requires 0.0 <= dist && dist * dist == Dist2(p, q)
    ensures WithinDistance(p, q, d) <==> dist < d
  {
    if dist < d {
      MulStrict(dist, d);
    } else if 0.0 < d {
      MulMono(d, dist);
    }
  }

  /** A squared distance below d squared bounds each axis by d. */
  lemma SquaredDistanceBoundsAxes(p: Point, q: Point, d: real)
    requires 0.0 < d && Dist2(p, q) < d * d
    ensures Abs(p.x - q.x) < d && Abs(p.y - q.y) < d
  {
    var dx, dy := Abs(p.x - q.x), Abs(p.y - q.y);
    assert dx * dx == (p.x - q.x) * (p.x - q.x);
    assert dy * dy == (p.y - q.y) * (p.y - q.y);
    if d <= dx {
      MulMono(d, dx);
    }
    if d <= dy {
      MulMono(d, dy);
    }
  }

  lemma MulStrict(a: real, b: real)
    requires 0.0 <= a < b
    ensures a * a < b * b
  {
    var low, mid, high := a * a, a * b, b * b;
    assert low <= mid;
    assert mid < high;
  }

  lemma MulMono(a: real, b: real)
    requires 0.0 <= a <= b
    ensures a * a <= b * b
  {
    var low, mid, high := a * a, a * b, b * b;
    assert low <= mid;
    assert mid <= high;
  }

  /** Target (100, 0), robot at (95, 0): inside a 10 mm window, outside a 4 mm one. */
  lemma XyWindowExample()
    ensures WithinDistance(Point(95.0, 0.0), Point(100.0, 0.0), 10.0)
    ensures !WithinDistance(Point(95.0, 0.0), Point(100.0, 0.0), 4.0)
  {
  }

  /** holonomic_robot_in_angle_window: d_a = a_target - heading; below a half
      turn the window is |d_a| < a_win/2, beyond it 2PI - |d_a| < a_win/2.
      Within a full turn this is "the shorter arc is below half the window". */
  function InAngleWindow(aTarget: real, heading: real, aWin: real): (inside: bool)
    ensures Abs(aTarget - heading) <= TWO_PI ==>
              (inside <==> ShortestArc(aTarget - heading) < aWin / 2.0)
  {
    var dA := aTarget - heading;
    if Abs(dA) < PI then Abs(dA) < aWin / 2.0
    else TWO_PI - Abs(dA) < aWin / 2.0
  }

  /** Reference definition: the length of the shorter arc between two
      headings whose difference is at most a full turn. */
  function ShortestArc(dA: real): (r: real)
    requires Abs(dA) <= TWO_PI
    ensures 0.0 <= r <= PI
    ensures r == Abs(dA) || r == TWO_PI - Abs(dA)
  {
    if Abs(dA) <= TWO_PI - Abs(dA) then Abs(dA) else TWO_PI - Abs(dA)
  }

  /** The window does not depend on which side of the wrap-around the target
      is written: a target and the same target a full turn lower agree. */
  lemma AngleWindowWrapsAround(aTarget: real, heading: real, aWin: real)
    requires 0.0 <= aTarget - heading <= TWO_PI
    ensures InAngleWindow(aTarget, heading, aWin) == InAngleWindow(aTarget - TWO_PI, heading, aWin)
  {
  }

  /** Target 0.05 rad, heading 2PI - 0.05 rad: the short way round is 0.1 rad,
      inside a window of 0.3 rad. */
  lemma AngleWindowExample()
    ensures InAngleWindow(0.05, TWO_PI - 0.05, 0.3)
  {
  }

  /** As coded, a difference of more than a full turn is always inside any
      window of non-negative width, because 2PI - |d_a| is then negative. */
  lemma AngleWindowBeyondFullTurn(aTarget: real, heading: real, aWin: real)
    requires Abs(aTarget - heading) > TWO_PI && 0.0 <= aWin
    ensures InAngleWindow(aTarget, heading, aWin)
  {
  }
}
