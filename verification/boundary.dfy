/** The move half of `physics`: every boid advances by `vel * dt`, is nudged
    back when it is within `MARGIN` of an edge, and is stopped at the wall
    with its velocity component reversed when it crosses one.

The source tests the four edges in the order left, right, bottom, top; each
test reads the position and velocity the previous one left behind.
 */
module Boundary {
  import opened Vectors
  import opened Config
  import opened Grid
  import opened Boids

  /** `b.pos = b.pos.add(b.vel.mult(dt))`. */
  function Integrate(b: Boid, dt: real): (r: Boid)
    ensures r.pos.Sub(b.pos) == b.vel.Scale(dt)
    ensures r.vel == b.vel && r.isScout1 == b.isScout1 && r.isScout2 == b.isScout2 && r.biasVal == b.biasVal
  {
    b.(pos := b.pos.Add(b.vel.Scale(dt)))
  }

  /** One coordinate and the matching velocity component. */
  datatype Axis = Axis(p: real, v: real)

  /** The rule for the low edge of an axis (left for `x`, top for `y`):
      below `margin` the velocity gains `TURN_FACTOR`; below zero the
      position is put back on zero and the velocity reversed. */
  function LowEdge(a: Axis, margin: real): Axis {
    if a.p < margin then
      if a.p < 0.0 then Axis(0.0, -(a.v + TurnFactor)) else Axis(a.p, a.v + TurnFactor)
    else a
  }

  /** The rule for the high edge of an axis (right for `x`, bottom for `y`):
      above `margin` the velocity loses `TURN_FACTOR`; above `limit` the
      position is put back on `limit` and the velocity reversed. */
  function HighEdge(a: Axis, margin: real, limit: real): Axis {
    if a.p > margin then
      if a.p > limit then Axis(limit, -(a.v - TurnFactor)) else Axis(a.p, a.v - TurnFactor)
    else a
  }

  /** Left then right, on the `x` axis. */
  function EdgesX(a: Axis): Axis {
    HighEdge(LowEdge(a, LeftMargin), RightMargin, CanvasWidth)
  }

  /** Bottom then top, on the `y` axis. */
  function EdgesY(a: Axis): Axis {
    LowEdge(HighEdge(a, BottomMargin, CanvasHeight), TopMargin)
  }

  /** The four edge rules applied to an integrated boid. */
  function ApplyEdges(b: Boid): Boid {
    var ax := EdgesX(Axis(b.pos.x, b.vel.x));
    var ay := EdgesY(Axis(b.pos.y, b.vel.y));
    b.(pos := Vector(ax.p, ay.p), vel := Vector(ax.v, ay.v))
  }

  /** One boid's turn in the move phase. Whatever its position and velocity,
      it ends inside the arena, and only its position and velocity change. */
  function MoveBoid(b: Boid, dt: real): (r: Boid)
    ensures InArena(r.pos)
    ensures r.isScout1 == b.isScout1 && r.isScout2 == b.isScout2 && r.biasVal == b.biasVal
  {
    ApplyEdges(Integrate(b, dt))
  }

  /** The position after integration, before the edge rules. */
  function Target(b: Boid, dt: real): Vector {
    Integrate(b, dt).pos
  }

  /** Between the left and right margins the horizontal rules do nothing:
      the `x` coordinate is the integrated one and the horizontal velocity is
      untouched, whatever happens vertically. */
  lemma FreeFlightX(b: Boid, dt: real)
    requires LeftMargin <= Target(b, dt).x <= RightMargin
    ensures MoveBoid(b, dt).pos.x == Target(b, dt).x
    ensures MoveBoid(b, dt).vel.x == b.vel.x
  {
  }

  /** Between the top and bottom margins the vertical rules do nothing. */
  lemma FreeFlightY(b: Boid, dt: real)
    requires TopMargin <= Target(b, dt).y <= BottomMargin
    ensures MoveBoid(b, dt).pos.y == Target(b, dt).y
    ensures MoveBoid(b, dt).vel.y == b.vel.y
  {
  }

  /** Inside the arena but within the left margin, the position is kept and
      the horizontal velocity gains `TURN_FACTOR`. */
  lemma LeftMarginNudge(b: Boid, dt: real)
    requires 0.0 <= Target(b, dt).x < LeftMargin
    ensures MoveBoid(b, dt).pos.x == Target(b, dt).x
    ensures MoveBoid(b, dt).vel.x == b.vel.x + TurnFactor
  {
  }

  /** Inside the arena but within the right margin, the horizontal velocity
      loses `TURN_FACTOR`. */
  lemma RightMarginNudge(b: Boid, dt: real)
    requires RightMargin < Target(b, dt).x <= CanvasWidth
    ensures MoveBoid(b, dt).pos.x == Target(b, dt).x
    ensures MoveBoid(b, dt).vel.x == b.vel.x - TurnFactor
  {
  }

  /** Inside the arena but within the bottom margin (large `y`), the vertical
      velocity loses `TURN_FACTOR`. */
  lemma BottomMarginNudge(b: Boid, dt: real)
    requires BottomMargin < Target(b, dt).y <= CanvasHeight
    ensures MoveBoid(b, dt).pos.y == Target(b, dt).y
    ensures MoveBoid(b, dt).vel.y == b.vel.y - TurnFactor
  {
  }

  /** Inside the arena but within the top margin (small `y`), the vertical
      velocity gains `TURN_FACTOR`. */
  lemma TopMarginNudge(b: Boid, dt: real)
    requires 0.0 <= Target(b, dt).y < TopMargin
    ensures MoveBoid(b, dt).pos.y == Target(b, dt).y
    ensures MoveBoid(b, dt).vel.y == b.vel.y + TurnFactor
  {
  }

  /** Crossing the left wall puts the boid on it and reverses the nudged
      horizontal velocity. The boid heads back into the arena exactly when it
      was moving left faster than `TURN_FACTOR`. */
  lemma LeftWallBounce(b: Boid, dt: real)
    requires Target(b, dt).x < 0.0
    ensures MoveBoid(b, dt).pos.x == 0.0
    ensures MoveBoid(b, dt).vel.x == -(b.vel.x + TurnFactor)
    ensures MoveBoid(b, dt).vel.x >= 0.0 <==> b.vel.x <= -TurnFactor
  {
  }

  /** Crossing the right wall puts the boid on it and reverses the nudged
      horizontal velocity. */
  lemma RightWallBounce(b: Boid, dt: real)
    requires Target(b, dt).x > CanvasWidth
    ensures MoveBoid(b, dt).pos.x == CanvasWidth
    ensures MoveBoid(b, dt).vel.x == -(b.vel.x - TurnFactor)
    ensures MoveBoid(b, dt).vel.x <= 0.0 <==> b.vel.x >= TurnFactor
  {
  }

  /** Crossing the bottom wall puts the boid on it and reverses the nudged
      vertical velocity. */
  lemma BottomWallBounce(b: Boid, dt: real)
    requires Target(b, dt).y > CanvasHeight
    ensures MoveBoid(b, dt).pos.y == CanvasHeight
    ensures MoveBoid(b, dt).vel.y == -(b.vel.y - TurnFactor)
    ensures MoveBoid(b, dt).vel.y <= 0.0 <==> b.vel.y >= TurnFactor
  {
  }

  /** Crossing the top wall puts the boid on it and reverses the nudged
      vertical velocity. */
  lemma TopWallBounce(b: Boid, dt: real)
    requires Target(b, dt).y < 0.0
    ensures MoveBoid(b, dt).pos.y == 0.0
    ensures MoveBoid(b, dt).vel.y == -(b.vel.y + TurnFactor)
    ensures MoveBoid(b, dt).vel.y >= 0.0 <==> b.vel.y <= -TurnFactor
  {
  }

  function Abs(a: real): real {
    if a < 0.0 then -a else a
  }

  /** The edge rules change the size of each velocity component by at most
      `TURN_FACTOR`. */
  lemma MoveBounds(b: Boid, dt: real)
    ensures Abs(MoveBoid(b, dt).vel.x) <= Abs(b.vel.x) + TurnFactor
    ensures Abs(MoveBoid(b, dt).vel.y) <= Abs(b.vel.y) + TurnFactor
  {
  }

  /** The move loop: every boid in turn, in flock order. The flock ends
      inside the arena, and only positions and velocities change. */
  function MovePhase(boids: seq<Boid>, dt: real): (r: seq<Boid>)
    ensures |r| == |boids|
    ensures AllBoidsInArena(r)
    ensures forall k :: 0 <= k < |boids| ==> r[k] == MoveBoid(boids[k], dt)
  {
    seq(|boids|, k requires 0 <= k < |boids| => MoveBoid(boids[k], dt))
  }
}
