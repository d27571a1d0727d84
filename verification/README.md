# Boids flocking engine: a Dafny model

This project models the per-frame engine of `boids.js`, a canvas animation
of 500 boids. It covers the following pieces, over exact reals:

- the `Vector` class;
- the spatial grid, which is the `Matrix` class, `Boid.addToPartition` and the
  rebuild at the start of `physics`;
- the row-major sweep over grid buckets, with the wrapped 3×3 gather of
  candidates;
- neighbour classification and the four steering forces, followed by the
  scouts' goal blend and the speed clamp;
- the move loop with its edge rules;
- flock creation at start-up, including scout roles, and by `reset`;
- a run of frames.

The modules follow the program's structure:

| module | file | what it holds |
|---|---|---|
| `Vectors` | vectors.dfy | `Vector`: `add`, `subtr`, `mult`, `normal`, `mag`, `dist`, `unit` |
| `Config` | config.dfy | the module-scope constants |
| `Grid` | grid.dfy | `Matrix`, `clear`, `addToPartition`, the rebuild, the wrapped gather, the row-major order |
| `Boids` | boids.dfy | `Boid`, `random`, the creation loop, scout assignment, `reset` |
| `Forces` | forces.dfy | the candidate loop, the averaged forces, scouts, the clamp, the sweep |
| `Boundary` | boundary.dfy | the move loop: integration and the four edges |
| `Simulation` | simulation.dfy | one `physics` frame, a run of frames, start-up followed by a run |

Modelling choices:

- **Numbers.** Every number is a `real`. Grid indices use `Floor` of
  reals, and the wrap uses `%` on non-negative integers. These are exactly
  the source's `Math.floor` and `%`.
- **Square root.** `Math.sqrt` becomes a parameter `sqrt: real -> real`.
  Facts that need it to be a true square root assume `IsSqrt(sqrt)`.
- **Random draws.** Each call of `Math.random()` is an explicit input.
  Facts about a draw hold when it lies in `[0, 1)`.
- **Boids.** The flock is a `seq<Boid>`, and buckets hold boid indices.
  The source's identity test `otherBoid == b` becomes index equality.
- **Errors.** A rebuild that reaches a bucket that does not exist raises
  the `TypeError` JavaScript throws. The model represents it as the
  `Outcome.TypeError` and `Frame.Failed` values.
- **Live updates, not a snapshot.** The force phase is a sequential fold.
  Buckets are visited in row-major order, and boids within a bucket in
  bucket order. Each boid reads its neighbours' velocities as already
  updated earlier in the same frame, as `boids.js` does when it assigns
  `b.vel` in place (lines 170-230). So a boid does not see a snapshot taken
  at the start of the frame, and the result depends on the visiting order.
- **Draw order.** The random draws of the force phase are consumed one
  triple per visited boid, in visiting order, as the calls to
  `Math.random` happen.

## Model

| member | source | states |
|---|---|---|
| Vectors.Unit | boids.js:55-61 | `unit` of the zero vector is the zero vector, whatever `sqrt` returns |
| Vectors.UnitProperties | boids.js:55-61 | for a true square root, `unit` of a non-zero vector has length one, scales back to the vector by its magnitude, and is zero only for the zero vector |
| Vectors.NormalProperties | boids.js:63-65 | `normal(v)` is perpendicular to `v`, keeps its length, and `normal(normal(v)) == -v` |
| Vectors.AddSubInverse | boids.js:35-41 | `subtr` undoes `add` and `add` undoes `subtr` |
| Vectors.DistLessIff | boids.js:47-53 | comparing `dist` with a radius is the same as comparing the squared distance with the squared radius |
| Vectors.MagPositive | boids.js:47-49 | `mag` is non-negative, and positive exactly for non-zero vectors |
| Grid.Ceil | boids.js:323 | `Math.ceil`: the least integer not below its argument |
| Grid.GridSize | boids.js:323 | the grid is 51 rows (x) by 29 columns (y) |
| Grid.CellIndex | boids.js:107-109 | bucket index `k` on an axis covers exactly the coordinates in `[(k-1)·35, k·35)` |
| Grid.ArenaCellInterior | boids.js:107-109 | every position with `0 ≤ x ≤ 1700` and `0 ≤ y ≤ 925` maps to a bucket in `[1, rows-2] × [1, cols-2]` |
| Grid.NearbyIndices | boids.js:107-109 | coordinates less than the vision radius apart get bucket indices at most 1 apart |
| Grid.WithinVisionAdjacent | boids.js:107-109 | two positions within vision distance fall in buckets that touch without wrapping |
| Grid.NewMatrix | boids.js:70-81 | the constructor gives a `rows × cols` grid of empty buckets |
| Grid.Clear | boids.js:83-90 | after `clear` the dimensions are unchanged and every bucket is empty, whatever the grid held before |
| Grid.AddToPartition | boids.js:107-109 | insertion succeeds exactly when the boid's bucket exists; it then appends the boid to that bucket only; otherwise it is the `TypeError` naming the boid |
| Grid.Members | boids.js:145-148 | the boids listed for a cell are exactly those whose position maps to it |
| Grid.MembersCount | boids.js:145-148 | a cell's list names each of its boids exactly once |
| Grid.PopulateOutcome | boids.js:145-148 | the rebuild succeeds exactly when every boid's bucket exists; a failure names the first boid without one |
| Grid.PopulateContents | boids.js:145-148 | after a rebuild every bucket holds its earlier contents followed by the boids of its cell, in flock order |
| Grid.PopulateArena | boids.js:145-148 | rebuilding the 51×29 grid from positions inside the arena never fails, and every bucket holds exactly the boids of its cell |
| Grid.OneBucketEach | boids.js:145-148 | after the rebuild every boid is in exactly one bucket, the one its position maps to |
| Grid.BucketCells | boids.js:145-148 | every boid listed in a bucket sits in that bucket's cell |
| Grid.SeamEmpty | boids.js:107-109 | row 0, row `rows-1`, column 0 and column `cols-1` never receive a boid from inside the arena |
| Grid.ArenaMarginEmpty | boids.js:145-148 | a grid rebuilt from positions inside the arena has an empty margin |
| Grid.Forward | boids.js:155-158 | `(i+1) % n` stays in `[0, n)`: the next index, wrapping to 0 after `n-1` |
| Grid.Back | boids.js:155-158 | `(i+n-1) % n` stays in `[0, n)`: the previous index, wrapping to `n-1` before 0 |
| Grid.Block | boids.js:159-168 | the nine cells gathered for a cell all exist in the grid |
| Grid.ConcatCount | boids.js:159-168 | concatenating the buckets of distinct cells lists each boid of those cells once and no other boid |
| Grid.InteriorBlock | boids.js:155-168 | around an interior cell no index wraps, and the nine cells are the 3×3 neighbourhood in the source's concatenation order |
| Grid.InteriorBlockAdjacent | boids.js:155-168 | around an interior cell the nine cells are distinct and are exactly the cells touching it |
| Grid.NoSeamLeak | boids.js:155-168 | with every boid in the arena, each gathered boid sits in a cell touching the centre cell without wrapping, so nothing comes from the far edge |
| Grid.GatherCount | boids.js:159-168 | around an interior cell the gathered list holds each boid of the 3×3 block exactly once and no other boid |
| Grid.NeighbourCompleteness | boids.js:159-168 | every boid within vision distance of a boid in the arena is among that boid's gathered candidates |
| Grid.RowMajorRank | boids.js:150-151 | the row-major visiting order and a cell's rank are inverse |
| Grid.FlattenCount | boids.js:150-154 | after the first `n` cells of the sweep each boid has been met once if its cell's rank is below `n`, and otherwise not at all |
| Grid.SweepOrderIsPermutation | boids.js:145-154 | the row-major sweep meets every boid exactly once, so the bucket sizes add up to the flock size |
| Boids.Random | boids.js:133-135 | `random(min, max)` with a draw in `[0, 1)` lies in `[min, max)` |
| Boids.RandomCovers | boids.js:133-135 | every value of `[min, max)` is produced by some draw, so the range is exactly `[min, max)` |
| Boids.SpawnPos | boids.js:324-326 | a starting position from draws in `[0, 1)` lies inside the arena, strictly below the far edges |
| Boids.SpawnFresh | boids.js:94-105 | freshly created boids are inside the arena, at rest, with no role and goal weight 0.4 |
| Boids.AssignScouts | boids.js:327-332 | the first `n1` boids gain the first scout role and the last `n2` the second; nothing else about any boid changes |
| Boids.StartUp | boids.js:324-332 | start-up creates 500 boids at rest; boids 0..99 are first-goal scouts and 400..499 second-goal scouts |
| Boids.StartUpRoles | boids.js:317-332 | after start-up no boid has both roles, and there are 100 scouts of each kind and 300 ordinary boids |
| Boids.Reset | boids.js:284-294 | `reset` creates 500 boids with neither scout role and sets the time step back to 1/60 |
| Forces.Accumulate | boids.js:173-199 | the neighbour count never exceeds the number of candidates, and with no neighbour the velocity and position totals stay zero |
| Forces.AccumulateAppend | boids.js:178-199 | the totals over two lists of candidates add up |
| Forces.AccumulatePermutation | boids.js:178-199 | the totals do not depend on the order in which candidates are met |
| Forces.AccumulateSeen | boids.js:178-199 | candidates the boid does not see add nothing to its totals |
| Forces.SeenCount | boids.js:180-190 | filtering the candidates keeps every occurrence of a boid in sight and drops every other |
| Forces.GridMatchesBruteForce | boids.js:159-199 | for a boid in an interior cell, the totals over the nine gathered buckets equal the totals over the whole flock |
| Forces.ContributionBySquares | boids.js:178-198 | a candidate other than the boid itself pushes when its squared distance is below 81, and is counted when that is at least 81 and below 1225; otherwise it adds nothing |
| Forces.ClassifyBySquares | boids.js:185-190 | the two distance tests agree with tests on squared distances |
| Forces.CoincidentNoPush | boids.js:186-189 | a boid exactly on top of another is inside the protected radius but adds a zero push |
| Forces.Averages | boids.js:201-205 | with neighbours, the averages times the count give the totals; without them, the totals are kept unchanged |
| Forces.JitterBound | boids.js:208 | the random push is shorter than `RANDOMNESS` |
| Forces.SteerClosedForm | boids.js:208-211 | the four sequential updates amount to keeping `1 - MATCH` of the pushed velocity and adding `MATCH` of the mean velocity, `CENTER` of the offset to the mean position, and `AVOID` of the push away |
| Forces.LoneBoidDrift | boids.js:202-211 | a boid with no neighbour is still slowed by 5% and pulled toward the canvas origin by 0.0005 of its position |
| Forces.BlendTowardGoal | boids.js:213-221 | a scout's goal term has length `biasVal` and points at the goal |
| Forces.ScoutSteerRoles | boids.js:213-221 | a boid with no role keeps its velocity; a scout of the first kind is blended toward `FOOD_POS1` and one of the second kind toward `FOOD_POS2`, the second blend applied to the result of the first when a boid has both roles; each goal term has length `biasVal` and points at its food position |
| Forces.ClampSpeed | boids.js:223-229 | a boid at rest stays at rest through the clamp, whatever `sqrt` returns |
| Forces.ClampSpeedBounds | boids.js:223-229 | after the clamp a velocity is zero or has speed in `[125, 250]`; it is zero only if it was zero; a speed already in range is kept; a moving boid too slow ends at exactly 125 and one too fast at exactly 250, and a moving boid keeps its direction |
| Forces.NewVelocitySpeed | boids.js:170-229 | the velocity a boid leaves its turn with is zero or within the speed limits |
| Forces.NewVelocityMatchesBruteForce | boids.js:170-229 | for a boid in an interior cell, the new velocity from the gathered candidates equals the one from the whole flock |
| Forces.Visit | boids.js:170-230 | one boid's turn replaces its velocity by the new velocity and changes nothing else in the flock |
| Forces.SweepBucket | boids.js:170-230 | sweeping a bucket changes only velocities, and only those of the bucket's boids |
| Forces.Sweep | boids.js:150-232 | the force phase changes only velocities, and only those of boids met in the sweep |
| Forces.ForcePhaseSpeed | boids.js:150-232 | after the force phase every boid of the flock is at rest or within the speed limits |
| Forces.SweepMatchesBruteForce | boids.js:150-232 | on a grid with an empty margin, the grid sweep gives the same flock as comparing each boid with the whole flock in the same visiting order |
| Boundary.Integrate | boids.js:237 | the position advances by exactly `vel · dt`, and nothing else changes |
| Boundary.MoveBoid | boids.js:236-267 | after the edge rules every boid is inside the arena, and its roles and goal weight are unchanged |
| Boundary.FreeFlightX | boids.js:240-253 | between the left and right margins `x` is the integrated value and the horizontal velocity is unchanged |
| Boundary.FreeFlightY | boids.js:254-267 | between the top and bottom margins `y` is the integrated value and the vertical velocity is unchanged |
| Boundary.LeftMarginNudge | boids.js:240-246 | inside the left margin the horizontal velocity gains `TURN_FACTOR` and the position is kept |
| Boundary.RightMarginNudge | boids.js:247-253 | inside the right margin the horizontal velocity loses `TURN_FACTOR` and the position is kept |
| Boundary.BottomMarginNudge | boids.js:254-260 | inside the bottom margin the vertical velocity loses `TURN_FACTOR` and the position is kept |
| Boundary.TopMarginNudge | boids.js:261-267 | inside the top margin the vertical velocity gains `TURN_FACTOR` and the position is kept |
| Boundary.LeftWallBounce | boids.js:240-246 | past the left wall the boid is put on it with horizontal velocity `-(v + TURN_FACTOR)`, heading back exactly when `v ≤ -TURN_FACTOR` |
| Boundary.RightWallBounce | boids.js:247-253 | past the right wall the boid is put on it with horizontal velocity `-(v - TURN_FACTOR)`, heading back exactly when `v ≥ TURN_FACTOR` |
| Boundary.BottomWallBounce | boids.js:254-260 | past the bottom wall the boid is put on it with vertical velocity `-(v - TURN_FACTOR)`, heading back exactly when `v ≥ TURN_FACTOR` |
| Boundary.TopWallBounce | boids.js:261-267 | past the top wall the boid is put on it with vertical velocity `-(v + TURN_FACTOR)`, heading back exactly when `v ≤ -TURN_FACTOR` |
| Boundary.MoveBounds | boids.js:240-267 | the edge rules change each velocity component's size by at most `TURN_FACTOR` |
| Boundary.MovePhase | boids.js:235-270 | the move loop moves each boid by the edge rules and leaves the whole flock inside the arena |
| Simulation.RebuiltGrid | boids.js:145-154 | a successful rebuild is the grid of the current positions, and the sweep then meets as many boids as there are |
| Simulation.Step | boids.js:144-271 | a frame fails exactly when some boid's bucket does not exist, naming the first such boid; otherwise it keeps size and roles, only changes velocities in the force phase, and ends with the flock inside the arena |
| Simulation.StepFromArena | boids.js:144-148 | a flock inside the arena never makes a frame fail |
| Simulation.StepSpeed | boids.js:150-232 | after a frame's force phase every boid is at rest or within the speed limits |
| Simulation.StepMatchesBruteForce | boids.js:144-232 | for a flock inside the arena, the frame steers every boid exactly as comparing it with the whole flock would |
| Simulation.RunFrames | boids.js:309-312 | running frames keeps the flock's size and every boid's roles and goal weight |
| Simulation.RunFromArena | boids.js:309-312 | started inside the arena, no frame ever fails and the flock stays inside the arena |
| Simulation.OnlyFirstFrameFails | boids.js:309-312 | whatever the starting positions, only the first frame can fail |
| Simulation.Animate | boids.js:317-336 | from start-up the animation runs without error, the flock stays in the arena, and the start-up scout roles persist |

## Left out

- Drawing is left out because it is an output side effect and nothing in the model reads it. This covers `Boid.draw`, `testText`, `ctx.clearRect` and the canvas set-up (lines 1-3, 112-123, 138-141, 234, 269).
- The frame timer is left out: `updateDeltaT`, `Date.now` and `setInterval` (lines 273-282, 315-316, 336) are wall-clock I/O. Each frame instead receives its time step `dt` as part of its `Tick`.
- Keyboard input (`userInput`, lines 296-306) is event plumbing and is left out. A `reset` is modelled as `Boids.Reset`. The `'p'` key, which overwrites `BOIDS[0]` with the number 1 so that the next frame throws, is not modelled.
- `round` (lines 127-130) is never called.
- IEEE floating-point rounding is not modelled. The model uses exact reals, so every equation holds exactly, and the speed bounds are exact rather than within rounding.
- `Math.sqrt` is a parameter. The properties that need it assume it returns the non-negative square root.
- `Math.random` is not modelled. Its draws are inputs, one pair per created boid and one triple per visited boid.
- Simulation.RunFrames: a frame whose rebuild throws is modelled as the end of the run. In the browser the interval timer keeps calling `main`, but positions never change again, so every later frame throws at the same boid.
- Simulation.StepMatchesBruteForce: stated for a flock inside the arena, which is every flock after the first frame and every flock that start-up or `reset` creates. It is not stated for every flock whose buckets merely exist.
- Forces.GridMatchesBruteForce: stated for a boid in an interior cell, which every boid inside the arena is.
- Forces.SweepMatchesBruteForce: stated for grids whose margin is empty, which is every grid rebuilt from a flock inside the arena.
