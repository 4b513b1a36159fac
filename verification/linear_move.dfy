/** A motion command that drives in a straight line from the pose captured
    when it starts to a fixed target, in a fixed time. */
module LinearMoves {
  import opened Geometry

  /** Position reached after the normalized time `t` of a straight move from
      `start` to `target`: each axis is interpolated on its own. */
  function Interpolate(start: Point, target: Point, t: real): (p: Point)
    ensures t == 0.0 ==> p == start
    ensures t == 1.0 ==> p == target
    ensures 0.0 <= t <= 1.0 ==> Between(p.x, start.x, target.x) && Between(p.y, start.y, target.y)
  {
    BetweenScaled(start.x, target.x, t);
    BetweenScaled(start.y, target.y, t);
    Point(start.x + (target.x - start.x) * t, start.y + (target.y - start.y) * t)
  }

  /** `v` lies on the closed interval with end points `a` and `b`, in either order. */
  predicate Between(v: real, a: real, b: real) {
    (a <= v <= b) || (b <= v <= a)
  }

  lemma BetweenScaled(a: real, b: real, t: real)
    ensures 0.0 <= t <= 1.0 ==> Between(a + (b - a) * t, a, b)
  {
    if 0.0 <= t <= 1.0 {
      var d := b - a;
      assert d - d * t == d * (1.0 - t);
      if a <= b {
        NonNegativeProduct(d, t);
        NonNegativeProduct(d, 1.0 - t);
      } else {
        NonNegativeProduct(-d, t);
        NonNegativeProduct(-d, 1.0 - t);
      }
    }
  }

  lemma NonNegativeProduct(u: real, v: real)
    requires 0.0 <= u && 0.0 <= v
    ensures 0.0 <= u * v
  {
  }

  /** Halfway through the move the robot is commanded to the midpoint on both axes. */
  lemma MidpointAtHalfTime(start: Point, target: Point)
    ensures Interpolate(start, target, 0.5) == Point((start.x + target.x) / 2.0, (start.y + target.y) / 2.0)
  {
  }

  /** The commanded x depends only on the x coordinates, and y only on the y coordinates. */
  lemma AxesAreIndependent(s1: Point, g1: Point, s2: Point, g2: Point, t: real)
    ensures s1.x == s2.x && g1.x == g2.x ==> Interpolate(s1, g1, t).x == Interpolate(s2, g2, t).x
    ensures s1.y == s2.y && g1.y == g2.y ==> Interpolate(s1, g1, t).y == Interpolate(s2, g2, t).y
  {
  }

  /** Progress is linear in time: between two normalized times the commanded
      position moves by the elapsed fraction of the whole displacement. */
  lemma ProgressIsProportional(start: Point, target: Point, a: real, b: real)
    ensures Interpolate(start, target, b).x - Interpolate(start, target, a).x == (b - a) * (target.x - start.x)
    ensures Interpolate(start, target, b).y - Interpolate(start, target, a).y == (b - a) * (target.y - start.y)
  {
    assert (target.x - start.x) * b - (target.x - start.x) * a == (b - a) * (target.x - start.x);
    assert (target.y - start.y) * b - (target.y - start.y) * a == (b - a) * (target.y - start.y);
  }

  /** Heading from `from` towards `to`, with the x difference as the first
      argument of `atan2`, as the firmware computes it. */
  function HeadingTowards(atan2: (real, real) -> real, from: Point, to: Point): (heading: real) {
    atan2(to.x - from.x, to.y - from.y)
  }

  class LinearMove {
    const targetPosition: Point
    /** The fixed duration of the move, in milliseconds. */
    const executionTime: bv32
    /** Captured by Start; read by Update. */
    var startingPosition: Point
    var targetOrientation: real
    /** Whether Start has run, so that the fields above hold a captured move. */
    ghost var started: bool

    constructor (tx: real, ty: real, t: bv32)
      ensures targetPosition == Point(tx, ty) && executionTime == t
      ensures !started
    {
      targetPosition := Point(tx, ty);
      executionTime := t;
      startingPosition := Point(0.0, 0.0);
      targetOrientation := 0.0;
      started := false;
    }

    /** Captures the starting pose, fixes the heading towards the target, and
        returns the configured duration, whatever the distance to cover. */
    method Start(sp: Pose, atan2: (real, real) -> real) returns (duration: bv32)
      modifies this
      ensures started
      ensures startingPosition == sp.position
      ensures targetOrientation == atan2(targetPosition.x - sp.position.x, targetPosition.y - sp.position.y)
      ensures duration == executionTime
    {
      startingPosition := sp.position;
      targetOrientation := HeadingTowards(atan2, sp.position, targetPosition);
      started := true;
      duration := executionTime;
    }

    /** The pose commanded at the normalized time `atNormalizedTime`; reading
        only, so no field of the move changes. */
    function Update(atNormalizedTime: real): (cmd: Pose)
      reads this
      requires started
      ensures cmd.heading == targetOrientation
      ensures cmd.position == Interpolate(startingPosition, targetPosition, atNormalizedTime)
      ensures atNormalizedTime == 0.0 ==> cmd.position == startingPosition
      ensures atNormalizedTime == 1.0 ==> cmd.position == targetPosition
    {
      Pose(Interpolate(startingPosition, targetPosition, atNormalizedTime), targetOrientation)
    }
  }

  /** A straight move started from `sp`: at the start it commands `sp`'s
      position, at the end the target, always with the same heading, and the
      duration is the configured one. */
  method RunSegment(tx: real, ty: real, t: bv32, sp: Pose, atan2: (real, real) -> real)
    returns (duration: bv32, first: Pose, last: Pose)
    ensures duration == t
    ensures first.position == sp.position && last.position == Point(tx, ty)
    ensures first.heading == last.heading == atan2(tx - sp.position.x, ty - sp.position.y)
  {
    var move := new LinearMove(tx, ty, t);
    duration := move.Start(sp, atan2);
    first := move.Update(0.0);
    last := move.Update(1.0);
  }
}
