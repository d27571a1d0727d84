/** One frame of `physics` and a run of frames.

A frame rebuilds the grid from the current positions, sweeps the grid's
buckets in row-major order updating each boid's velocity (`Forces.Sweep`),
then moves every boid in flock order (`Boundary.MovePhase`). The random
draws of the sweep are consumed one per visited boid, in visiting order;
the time step `dt` is whatever the frame timer measured.
 */
module Simulation {
  import opened Vectors
  import opened Config
  import opened Grid
  import opened Boids
  import opened Forces
  import opened Boundary

  /** What one frame needs from outside: one triple of draws per boid and
      the measured time step. */
  datatype Tick = Tick(draws: seq<Draw3>, dt: real)

  /** The outcome of a frame. `Moved` keeps the rebuilt grid, the flock after
      the force sweep and the flock after the move loop. `Failed` is the
      `TypeError` thrown while rebuilding the grid, naming the boid whose
      bucket does not exist; nothing moves. */
  datatype Frame = Moved(grid: Matrix, steered: seq<Boid>, boids: seq<Boid>) | Failed(boid: nat)

  /** A rebuilt grid is the grid of the positions, every position has a
      bucket, and the sweep visits as many boids as there are. */
  lemma {:induction false} RebuiltGrid(m: Matrix, ps: seq<Vector>)
    requires m.rows == Rows && m.cols == Cols
    requires Populate(Clear(m), ps).Ok?
    ensures Populated(Populate(Clear(m), ps).grid, ps) && AllInGrid(ps)
    ensures IndicesBelow(Populate(Clear(m), ps).grid, |ps|)
    ensures Rows * Cols == 1479 && |Flatten(Populate(Clear(m), ps).grid, Rows * Cols)| == |ps|
  {
    var g := Populate(Clear(m), ps).grid;
    PopulateOutcome(Clear(m), ps);
    PopulateContents(Clear(m), ps);
    forall i, j | 0 <= i < Rows && 0 <= j < Cols
      ensures g.data[i][j] == Members(ps, Cell(i, j))
    {
      assert Clear(m).data[i][j] == [];
    }
    PopulatedBelow(g, ps);
    SweepOrderIsPermutation(g, ps);
  }

  /** `physics()`: rebuild the grid, sweep it, move. The frame fails exactly
      when some boid's cell lies outside the grid, and then it names the
      first such boid. A frame that succeeds keeps the flock's size and
      roles, leaves every boid inside the arena, and moves each boid from
      its steered state. */
  function Step(m: Matrix, boids: seq<Boid>, t: Tick, sqrt: real -> real): (r: Frame)
    requires m.rows == Rows && m.cols == Cols
    requires |t.draws| == |boids|
    ensures r.Failed? <==> !AllInGrid(Positions(boids))
    ensures r.Failed? ==>
      r.boid < |boids| && !InGrid(CellOf(boids[r.boid].pos)) &&
      forall k :: 0 <= k < r.boid ==> InGrid(CellOf(boids[k].pos))
    ensures r.Moved? ==>
      Populated(r.grid, Positions(boids)) &&
      |r.steered| == |boids| && |r.boids| == |boids| &&
      AllBoidsInArena(r.boids) &&
      forall k :: 0 <= k < |boids| ==>
        SameButVel(r.steered[k], boids[k]) && r.boids[k] == MoveBoid(r.steered[k], t.dt)
  {
    var ps := Positions(boids);
    PopulateOutcome(Clear(m), ps);
    match Populate(Clear(m), ps)
    case TypeError(k) => Failed(k)
    case Ok(g) =>
      RebuiltGrid(m, ps);
      var steered := Sweep(g, boids, Rows * Cols, t.draws, sqrt);
      Moved(g, steered, MovePhase(steered, t.dt))
  }

  /** The flock's positions are inside the arena. */
  lemma {:induction false} ArenaPositions(boids: seq<Boid>)
    requires AllBoidsInArena(boids)
    ensures AllInArena(Positions(boids)) && AllInGrid(Positions(boids))
  {
    ArenaInGrid(Positions(boids));
  }

  /** A flock inside the arena never makes a frame fail. */
  lemma {:induction false} StepFromArena(m: Matrix, boids: seq<Boid>, t: Tick, sqrt: real -> real)
    requires m.rows == Rows && m.cols == Cols
    requires |t.draws| == |boids|
    requires AllBoidsInArena(boids)
    ensures Step(m, boids, t, sqrt).Moved?
  {
    ArenaPositions(boids);
  }

  /** After the sweep every boid is at rest or has a speed within
      `[MIN_SPEED, MAX_SPEED]`; the move loop then applies the edge rules to
      that velocity. */
  lemma {:induction false} StepSpeed(m: Matrix, boids: seq<Boid>, t: Tick, sqrt: real -> real)
    requires IsSqrt(sqrt)
    requires m.rows == Rows && m.cols == Cols
    requires |t.draws| == |boids|
    requires Step(m, boids, t, sqrt).Moved?
    ensures forall k :: 0 <= k < |boids| ==> SpeedOk(Step(m, boids, t, sqrt).steered[k].vel)
  {
    var ps := Positions(boids);
    PopulateOutcome(Clear(m), ps);
    var g := Populate(Clear(m), ps).grid;
    RebuiltGrid(m, ps);
    ForcePhaseSpeed(g, boids, t.draws, sqrt);
  }

  /** For a flock inside the arena the grid is only an optimisation: the
      frame steers every boid exactly as comparing it against the whole flock
      would, visiting the boids in the same order. */
  lemma {:induction false} StepMatchesBruteForce(m: Matrix, boids: seq<Boid>, t: Tick, sqrt: real -> real)
    requires IsSqrt(sqrt)
    requires m.rows == Rows && m.cols == Cols
    requires |t.draws| == |boids|
    requires AllBoidsInArena(boids)
    ensures Step(m, boids, t, sqrt).Moved?
    ensures var g := Step(m, boids, t, sqrt).grid;
      IndicesBelow(g, |boids|) && Rows * Cols == 1479 && |Flatten(g, Rows * Cols)| <= |t.draws| &&
      Step(m, boids, t, sqrt).steered == SweepBrute(g, boids, Rows * Cols, t.draws, sqrt)
  {
    var ps := Positions(boids);
    ArenaPositions(boids);
    PopulateOutcome(Clear(m), ps);
    var g := Populate(Clear(m), ps).grid;
    RebuiltGrid(m, ps);
    ArenaMarginEmpty(g, ps);
    SweepMatchesBruteForce(g, boids, Rows * Cols, t.draws, sqrt);
  }

  /** A run of frames, one per tick, stopping at the first that fails. */
  datatype Run = Ran(grid: Matrix, boids: seq<Boid>) | Stopped(frame: nat, boid: nat)

  predicate TicksFit(ticks: seq<Tick>, n: nat) {
    forall i :: 0 <= i < |ticks| ==> |ticks[i].draws| == n
  }

  /** The animation loop over `ticks`: each frame starts from the grid and
      flock the previous one left. The flock's size and every boid's roles
      never change. */
  function RunFrames(m: Matrix, boids: seq<Boid>, ticks: seq<Tick>, sqrt: real -> real): (r: Run)
    requires m.rows == Rows && m.cols == Cols
    requires TicksFit(ticks, |boids|)
    ensures r.Ran? ==> r.grid.rows == Rows && r.grid.cols == Cols && |r.boids| == |boids|
    ensures r.Ran? ==> forall k :: 0 <= k < |boids| ==>
      r.boids[k].isScout1 == boids[k].isScout1 && r.boids[k].isScout2 == boids[k].isScout2 &&
      r.boids[k].biasVal == boids[k].biasVal
    ensures r.Stopped? ==> r.frame < |ticks|
    decreases |ticks|
  {
    if |ticks| == 0 then Ran(m, boids)
    else
      match Step(m, boids, ticks[0], sqrt)
      case Failed(k) => Stopped(0, k)
      case Moved(g, _, next) =>
        match RunFrames(g, next, ticks[1..], sqrt)
        case Stopped(f, k) => Stopped(f + 1, k)
        case Ran(g', final) => Ran(g', final)
  }

  /** Started inside the arena — as start-up and `reset` start — the
      animation never stops on an error, and the flock stays inside the arena. */
  lemma {:induction false} RunFromArena(m: Matrix, boids: seq<Boid>, ticks: seq<Tick>, sqrt: real -> real)
    requires m.rows == Rows && m.cols == Cols
    requires TicksFit(ticks, |boids|)
    requires AllBoidsInArena(boids)
    ensures RunFrames(m, boids, ticks, sqrt).Ran?
    ensures AllBoidsInArena(RunFrames(m, boids, ticks, sqrt).boids)
    decreases |ticks|
  {
    if |ticks| > 0 {
      StepFromArena(m, boids, ticks[0], sqrt);
      var f := Step(m, boids, ticks[0], sqrt);
      assert TicksFit(ticks[1..], |f.boids|) by {
        forall i | 0 <= i < |ticks[1..]|
          ensures |ticks[1..][i].draws| == |f.boids|
        {
          assert ticks[1..][i] == ticks[i + 1];
        }
      }
      RunFromArena(f.grid, f.boids, ticks[1..], sqrt);
    }
  }

  /** Whatever the starting positions, only the first frame can fail: every
      later frame starts from a flock the move loop put inside the arena. */
  lemma {:induction false} OnlyFirstFrameFails(m: Matrix, boids: seq<Boid>, ticks: seq<Tick>, sqrt: real -> real)
    requires m.rows == Rows && m.cols == Cols
    requires TicksFit(ticks, |boids|)
    ensures RunFrames(m, boids, ticks, sqrt).Stopped? ==> RunFrames(m, boids, ticks, sqrt).frame == 0
  {
    if |ticks| > 0 && Step(m, boids, ticks[0], sqrt).Moved? {
      var f := Step(m, boids, ticks[0], sqrt);
      assert TicksFit(ticks[1..], |f.boids|) by {
        forall i | 0 <= i < |ticks[1..]|
          ensures |ticks[1..][i].draws| == |f.boids|
        {
          assert ticks[1..][i] == ticks[i + 1];
        }
      }
      RunFromArena(f.grid, f.boids, ticks[1..], sqrt);
    }
  }

  /** From start-up with draws in `[0, 1)`, the animation runs without error
      and the scout roles assigned at start-up persist in every frame. */
  method Animate(ds: seq<Draw2>, m: Matrix, ticks: seq<Tick>, sqrt: real -> real) returns (boids: seq<Boid>)
    requires |ds| == NumBoids && UnitDraws(ds)
    requires m.rows == Rows && m.cols == Cols
    requires TicksFit(ticks, NumBoids)
    ensures |boids| == NumBoids && AllBoidsInArena(boids)
    ensures forall k :: 0 <= k < NumBoids ==>
      (boids[k].isScout1 <==> k < NumScout1s) && (boids[k].isScout2 <==> NumBoids - NumScout2s <= k)
  {
    var start := StartUp(ds);
    RunFromArena(m, start, ticks, sqrt);
    boids := RunFrames(m, start, ticks, sqrt).boids;
  }
}
