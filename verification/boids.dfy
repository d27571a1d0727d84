/** The `Boid` record, the `random` helper, and how the flock is created at
    start-up and by `reset`.

`Math.random()` is not modelled: every draw is an explicit input `u`, and the
facts about a draw hold when `u` lies in `[0, 1)`, the range `Math.random`
promises.
 */
module Boids {
  import opened Vectors
  import opened Config
  import opened Grid

  /** A boid: position, velocity, the two scout roles and the goal weight. */
  datatype Boid = Boid(pos: Vector, vel: Vector, isScout1: bool, isScout2: bool, biasVal: real)

  /** The `Boid` constructor: at rest, no role, default goal weight. */
  function NewBoid(pos: Vector): Boid {
    Boid(pos, Zero, false, false, DefaultBias)
  }

  /** A value `Math.random()` can return. */
  predicate UnitDraw(u: real) {
    0.0 <= u < 1.0
  }

  /** `random(min, max)` with `u` standing for `Math.random()`. The source's
      scale `(max-1)-min+1` is `max-min`, so the draw lands in `[min, max)`. */
  function Random(min: real, max: real, u: real): (r: real)
    ensures UnitDraw(u) && min < max ==> min <= r < max
  {
    var d := (max - 1.0) - min + 1.0;
    assert d == max - min;
    ScaleBelow(u, d);
    u * d + min
  }

  /** A draw in `[0, 1)` scales a positive width to a value below it. */
  lemma {:induction false} ScaleBelow(u: real, d: real)
    ensures 0.0 <= u < 1.0 && d > 0.0 ==> 0.0 <= u * d < d
  {
    if 0.0 <= u < 1.0 && d > 0.0 {
      MulMono(0.0, u, 0.0, d);
      MulStrictMono(u, 1.0, 0.0, d);
    }
  }

  /** Dividing by a larger positive width gives a draw in `[0, 1)`. */
  lemma {:induction false} DivBelowOne(a: real, d: real)
    requires 0.0 <= a < d
    ensures 0.0 <= a / d < 1.0 && (a / d) * d == a
  {
    var q := a / d;
    assert q * d == a;
    if q >= 1.0 {
      MulMono(1.0, q, d, d);
    }
    if q < 0.0 {
      MulMono(0.0, -q, 0.0, d);
    }
  }

  /** Every value of `[min, max)` is reached by some draw, so the range of
      `random` is exactly `[min, max)`. */
  lemma {:induction false} RandomCovers(min: real, max: real, r: real)
    requires min <= r < max
    ensures exists u :: UnitDraw(u) && Random(min, max, u) == r
  {
    var d := max - min;
    DivBelowOne(r - min, d);
    var u := (r - min) / d;
    assert UnitDraw(u) && Random(min, max, u) == r;
  }

  /** A pair of draws, for the two coordinates of a starting position. */
  datatype Draw2 = Draw2(u: real, v: real)

  predicate UnitDraws(ds: seq<Draw2>) {
    forall k :: 0 <= k < |ds| ==> UnitDraw(ds[k].u) && UnitDraw(ds[k].v)
  }

  /** The position `new Vector(random(0, CANVAS_WIDTH), random(0, CANVAS_HEIGHT))`. */
  function SpawnPos(d: Draw2): (p: Vector)
    ensures UnitDraw(d.u) && UnitDraw(d.v) ==> InArena(p) && p.x < CanvasWidth && p.y < CanvasHeight
  {
    Vector(Random(0.0, CanvasWidth, d.u), Random(0.0, CanvasHeight, d.v))
  }

  /** The creation loop shared by start-up and `reset`: one fresh boid per draw. */
  function Spawn(ds: seq<Draw2>): (r: seq<Boid>)
    ensures |r| == |ds|
    ensures forall k :: 0 <= k < |ds| ==> r[k] == NewBoid(SpawnPos(ds[k]))
  {
    seq(|ds|, k requires 0 <= k < |ds| => NewBoid(SpawnPos(ds[k])))
  }

  predicate AllBoidsInArena(boids: seq<Boid>) {
    forall k :: 0 <= k < |boids| ==> InArena(boids[k].pos)
  }

  /** Freshly created boids are inside the arena, at rest and without a role. */
  lemma {:induction false} SpawnFresh(ds: seq<Draw2>)
    requires UnitDraws(ds)
    ensures AllBoidsInArena(Spawn(ds))
    ensures forall k :: 0 <= k < |ds| ==>
      Spawn(ds)[k].vel == Zero && !Spawn(ds)[k].isScout1 && !Spawn(ds)[k].isScout2 &&
      Spawn(ds)[k].biasVal == DefaultBias
  {
  }

  /** The two scout loops of start-up: the first `n1` boids become scouts for
      the first goal and the last `n2` for the second. Flags already set stay
      set; nothing else changes. Indexing past the flock would throw in the
      source, hence the bounds on `n1` and `n2`. */
  method AssignScouts(boids: seq<Boid>, n1: nat, n2: nat) returns (r: seq<Boid>)
    requires n1 <= |boids| && n2 <= |boids|
    ensures |r| == |boids|
    ensures forall k :: 0 <= k < |r| ==>
      r[k].isScout1 == (boids[k].isScout1 || k < n1) &&
      r[k].isScout2 == (boids[k].isScout2 || |boids| - n2 <= k)
    ensures forall k :: 0 <= k < |r| ==>
      r[k].pos == boids[k].pos && r[k].vel == boids[k].vel && r[k].biasVal == boids[k].biasVal
  {
    r := boids;
    var i := 0;
    while i < n1
      invariant 0 <= i <= n1
      invariant |r| == |boids|
      invariant forall k :: 0 <= k < |r| ==>
        r[k] == if k < i then boids[k].(isScout1 := true) else boids[k]
    {
      r := r[i := r[i].(isScout1 := true)];
      i := i + 1;
    }
    var n := |boids|;
    i := 0;
    while i < n2
      invariant 0 <= i <= n2
      invariant |r| == n
      invariant forall k :: 0 <= k < n ==>
        r[k] == (var s1 := if k < n1 then boids[k].(isScout1 := true) else boids[k];
                 if n - i <= k then s1.(isScout2 := true) else s1)
    {
      r := r[n - 1 - i := r[n - 1 - i].(isScout2 := true)];
      i := i + 1;
    }
  }

  /** The number of boids satisfying `p`. */
  function CountIf(boids: seq<Boid>, p: Boid -> bool): (c: nat)
    ensures c <= |boids|
  {
    if |boids| == 0 then 0
    else CountIf(boids[..|boids| - 1], p) + (if p(boids[|boids| - 1]) then 1 else 0)
  }

  /** When `p` holds exactly on the index range `[lo, hi)`, `hi - lo` boids satisfy it. */
  lemma {:induction false} CountRange(boids: seq<Boid>, p: Boid -> bool, lo: nat, hi: nat)
    requires lo <= hi <= |boids|
    requires forall k :: 0 <= k < |boids| ==> (p(boids[k]) <==> lo <= k < hi)
    ensures CountIf(boids, p) == hi - lo
    decreases |boids|
  {
    if |boids| > 0 {
      var last := |boids| - 1;
      var init := boids[..last];
      assert forall k :: 0 <= k < last ==> init[k] == boids[k];
      if hi == |boids| && lo < hi {
        CountRange(init, p, lo, hi - 1);
      } else if hi == |boids| {
        CountRange(init, p, last, last);
      } else {
        CountRange(init, p, lo, hi);
      }
    }
  }

  /** Start-up: create `NUM_BOIDS` boids from the draws, then assign the scouts. */
  method StartUp(ds: seq<Draw2>) returns (boids: seq<Boid>)
    requires |ds| == NumBoids
    ensures |boids| == NumBoids
    ensures forall k :: 0 <= k < |boids| ==>
      boids[k].pos == SpawnPos(ds[k]) && boids[k].vel == Zero && boids[k].biasVal == DefaultBias
    ensures forall k :: 0 <= k < |boids| ==>
      (boids[k].isScout1 <==> k < NumScout1s) &&
      (boids[k].isScout2 <==> NumBoids - NumScout2s <= k)
    ensures UnitDraws(ds) ==> AllBoidsInArena(boids)
  {
    boids := AssignScouts(Spawn(ds), NumScout1s, NumScout2s);
  }

  predicate IsScout1(b: Boid) { b.isScout1 }
  predicate IsScout2(b: Boid) { b.isScout2 }
  predicate IsPlain(b: Boid) { !b.isScout1 && !b.isScout2 }

  /** After start-up the roles are disjoint: 100 scouts of each kind and 300
      ordinary boids. */
  lemma {:induction false} StartUpRoles(boids: seq<Boid>)
    requires |boids| == NumBoids
    requires forall k :: 0 <= k < |boids| ==>
      (boids[k].isScout1 <==> k < NumScout1s) &&
      (boids[k].isScout2 <==> NumBoids - NumScout2s <= k)
    ensures forall k :: 0 <= k < |boids| ==> !(boids[k].isScout1 && boids[k].isScout2)
    ensures CountIf(boids, IsScout1) == 100
    ensures CountIf(boids, IsScout2) == 100
    ensures CountIf(boids, IsPlain) == 300
  {
    CountRange(boids, IsScout1, 0, NumScout1s);
    CountRange(boids, IsScout2, NumBoids - NumScout2s, NumBoids);
    CountRange(boids, IsPlain, NumScout1s, NumBoids - NumScout2s);
  }

  /** `reset`: a new flock of `NUM_BOIDS` boids and the time step back at 1/60.
      The scout loops are not re-run, so after a reset no boid has a role. */
  function Reset(ds: seq<Draw2>): (r: (seq<Boid>, real))
    requires |ds| == NumBoids
    ensures |r.0| == NumBoids && r.1 == InitialDt
    ensures forall k :: 0 <= k < NumBoids ==> IsPlain(r.0[k])
    ensures CountIf(r.0, IsScout1) == 0 && CountIf(r.0, IsScout2) == 0
  {
    var boids := Spawn(ds);
    CountRange(boids, IsScout1, 0, 0);
    CountRange(boids, IsScout2, 0, 0);
    (boids, InitialDt)
  }
}
