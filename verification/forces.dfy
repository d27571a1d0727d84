/** The force half of `physics`: classification of the candidates gathered
    from the grid, the averaged flocking forces, the scouts' pull toward food,
    the speed clamp, and the row-major sweep that applies all of it.

The sweep updates velocities in place: a boid visited later reads the new
velocity of a neighbour visited earlier. Positions do not change until the
move phase.
 */
module Forces {
  import opened Vectors
  import opened Config
  import opened Grid
  import opened Boids

  // ---------------------------------------------------------------------
  // Classification of neighbours
  // ---------------------------------------------------------------------

  /** The running totals of the candidate loop: `avoidForce`, the summed
      velocities and positions, and `nearbyBoids`. */
  datatype Sums = Sums(avoid: Vector, vel: Vector, pos: Vector, count: nat) {
    function Plus(t: Sums): Sums {
      Sums(avoid.Add(t.avoid), vel.Add(t.vel), pos.Add(t.pos), count + t.count)
    }
  }

  const NoSums := Sums(Zero, Zero, Zero, 0)

  /** What candidate `o` adds to the totals of boid `k`: nothing for the boid
      itself; a push away for a boid inside the protected radius; its velocity
      and position for one inside the vision radius; nothing otherwise. */
  function Contribution(boids: seq<Boid>, k: nat, o: nat, sqrt: real -> real): Sums
    requires k < |boids| && o < |boids|
  {
    if o == k then NoSums
    else
      var d := Dist(boids[k].pos, boids[o].pos, sqrt);
      if d < ProtectedRadius then Sums(boids[k].pos.Sub(boids[o].pos), Zero, Zero, 0)
      else if d < VisionRadius then Sums(Zero, boids[o].vel, boids[o].pos, 1)
      else NoSums
  }

  /** `o` is another boid that `k` sees. */
  predicate Sees(boids: seq<Boid>, k: nat, o: nat, sqrt: real -> real)
    requires k < |boids| && o < |boids|
  {
    o != k && Dist(boids[k].pos, boids[o].pos, sqrt) < VisionRadius
  }

  /** The candidate loop of `physics`, a left fold over `boidsToCheck`. The
      velocity and position totals stay zero until a neighbour is counted, and
      every candidate is counted at most once. */
  function Accumulate(boids: seq<Boid>, k: nat, cands: seq<nat>, sqrt: real -> real): (s: Sums)
    requires k < |boids| && Below(cands, |boids|)
    ensures s.count <= |cands|
    ensures s.count == 0 ==> s.vel == Zero && s.pos == Zero
    decreases |cands|
  {
    if |cands| == 0 then NoSums
    else
      var last := |cands| - 1;
      Accumulate(boids, k, cands[..last], sqrt).Plus(Contribution(boids, k, cands[last], sqrt))
  }

  /** One more candidate at the end adds its own share. */
  lemma {:induction false} AccumulateSnoc(boids: seq<Boid>, k: nat, cands: seq<nat>, x: nat, sqrt: real -> real)
    requires k < |boids| && Below(cands, |boids|) && x < |boids|
    ensures Below(cands + [x], |boids|)
    ensures Accumulate(boids, k, cands + [x], sqrt) ==
      Accumulate(boids, k, cands, sqrt).Plus(Contribution(boids, k, x, sqrt))
  {
    assert (cands + [x])[..|cands|] == cands;
  }

  /** The totals over two lists of candidates add up. */
  lemma {:induction false} AccumulateAppend(boids: seq<Boid>, k: nat, a: seq<nat>, b: seq<nat>, sqrt: real -> real)
    requires k < |boids| && Below(a, |boids|) && Below(b, |boids|)
    ensures Below(a + b, |boids|)
    ensures Accumulate(boids, k, a + b, sqrt) ==
      Accumulate(boids, k, a, sqrt).Plus(Accumulate(boids, k, b, sqrt))
    decreases |b|
  {
    if |b| > 0 {
      var last := |b| - 1;
      var init := b[..last];
      var x := b[last];
      assert b == init + [x];
      assert a + b == (a + init) + [x];
      AccumulateAppend(boids, k, a, init, sqrt);
      AccumulateSnoc(boids, k, a + init, x, sqrt);
      AccumulateSnoc(boids, k, init, x, sqrt);
      PlusAssoc(Accumulate(boids, k, a, sqrt), Accumulate(boids, k, init, sqrt), Contribution(boids, k, x, sqrt));
    } else {
      assert a + b == a;
      NoSumsPlus(Accumulate(boids, k, a, sqrt));
    }
  }

  /** Removing the last element of `a` and one occurrence of it from `b`
      keeps two equal multisets equal. */
  lemma {:induction false} RemoveMatching(a: seq<nat>, b: seq<nat>, i: nat)
    requires |a| > 0 && i < |b| && b[i] == a[|a| - 1]
    requires multiset(a) == multiset(b)
    ensures multiset(a[..|a| - 1]) == multiset(b[..i] + b[i + 1..])
  {
    var last := |a| - 1;
    var x := a[last];
    var rest := b[..i] + b[i + 1..];
    assert a == a[..last] + [x];
    assert b == b[..i] + [x] + b[i + 1..];
    forall y
      ensures multiset(a[..last])[y] == multiset(rest)[y]
    {
      assert multiset(a)[y] == multiset(a[..last])[y] + multiset{x}[y];
      assert multiset(b)[y] == multiset(b[..i])[y] + multiset{x}[y] + multiset(b[i + 1..])[y];
    }
  }

  lemma {:induction false} BelowPermutation(a: seq<nat>, b: seq<nat>, n: nat)
    requires Below(a, n) && multiset(a) == multiset(b)
    ensures Below(b, n)
  {
    forall j | 0 <= j < |b|
      ensures b[j] < n
    {
      assert b[j] in multiset(a);
    }
  }

  lemma {:induction false} BelowAbsent(cands: seq<nat>, n: nat, o: nat)
    requires Below(cands, n) && n <= o
    ensures multiset(cands)[o] == 0
  {
  }

  /** Adding totals is commutative and associative, so a term can move to the end. */
  lemma {:induction false} PlusSwap(a: Sums, b: Sums, c: Sums)
    ensures a.Plus(b).Plus(c) == a.Plus(c).Plus(b)
  {
  }

  lemma {:induction false} PlusAssoc(a: Sums, b: Sums, c: Sums)
    ensures a.Plus(b).Plus(c) == a.Plus(b.Plus(c))
  {
  }

  /** `NoSums` is the unit of `Plus`, on either side. */
  lemma {:induction false} NoSumsPlus(t: Sums)
    ensures NoSums.Plus(t) == t && t.Plus(NoSums) == t
  {
    assert t.avoid == Vector(t.avoid.x, t.avoid.y);
    assert t.vel == Vector(t.vel.x, t.vel.y);
    assert t.pos == Vector(t.pos.x, t.pos.y);
  }

  /** A single candidate contributes its own share. */
  lemma {:induction false} AccumulateSingle(boids: seq<Boid>, k: nat, x: nat, sqrt: real -> real)
    requires k < |boids| && x < |boids|
    ensures Below([x], |boids|)
    ensures Accumulate(boids, k, [x], sqrt) == Contribution(boids, k, x, sqrt)
  {
    assert [x][..0] == [];
    var c := Contribution(boids, k, x, sqrt);
    assert Accumulate(boids, k, [x], sqrt) == NoSums.Plus(c);
    NoSumsPlus(c);
  }

  /** A candidate in the middle of the list contributes as if it came last. */
  lemma {:induction false} AccumulateExtract(boids: seq<Boid>, k: nat, b1: seq<nat>, x: nat, b2: seq<nat>, sqrt: real -> real)
    requires k < |boids| && x < |boids| && Below(b1, |boids|) && Below(b2, |boids|)
    ensures Below(b1 + [x] + b2, |boids|) && Below(b1 + b2, |boids|)
    ensures Accumulate(boids, k, b1 + [x] + b2, sqrt) ==
      Accumulate(boids, k, b1 + b2, sqrt).Plus(Contribution(boids, k, x, sqrt))
  {
    AccumulateAppend(boids, k, b1, [x], sqrt);
    AccumulateAppend(boids, k, b1 + [x], b2, sqrt);
    AccumulateAppend(boids, k, b1, b2, sqrt);
    AccumulateSingle(boids, k, x, sqrt);
    PlusSwap(Accumulate(boids, k, b1, sqrt), Contribution(boids, k, x, sqrt), Accumulate(boids, k, b2, sqrt));
  }

  /** The last candidate of `a` occurs somewhere in its permutation `b`;
      taking it out of both leaves permutations again. */
  lemma {:induction false} MatchLast(a: seq<nat>, b: seq<nat>, n: nat) returns (b1: seq<nat>, b2: seq<nat>)
    requires |a| > 0 && Below(a, n) && multiset(a) == multiset(b)
    ensures b == b1 + [a[|a| - 1]] + b2
    ensures Below(b1, n) && Below(b2, n)
    ensures multiset(a[..|a| - 1]) == multiset(b1 + b2)
  {
    BelowPermutation(a, b, n);
    var x := a[|a| - 1];
    assert x in multiset(b);
    var i :| 0 <= i < |b| && b[i] == x;
    b1, b2 := b[..i], b[i + 1..];
    assert b == b1 + [x] + b2;
    RemoveMatching(a, b, i);
    assert Below(b1, n) && Below(b2, n);
  }

  /** The inductive step of `AccumulatePermutation`: the last candidate of
      `a`, taken out of the middle of `b`, adds the same share to both. */
  lemma {:induction false} PermutationStep(boids: seq<Boid>, k: nat, a: seq<nat>, b1: seq<nat>, b2: seq<nat>, sqrt: real -> real)
    requires k < |boids| && |a| > 0 && Below(a, |boids|) && Below(b1, |boids|) && Below(b2, |boids|)
    requires Below(a[..|a| - 1], |boids|) && Below(b1 + b2, |boids|)
    requires Accumulate(boids, k, a[..|a| - 1], sqrt) == Accumulate(boids, k, b1 + b2, sqrt)
    ensures Below(b1 + [a[|a| - 1]] + b2, |boids|)
    ensures Accumulate(boids, k, a, sqrt) == Accumulate(boids, k, b1 + [a[|a| - 1]] + b2, sqrt)
  {
    AccumulateExtract(boids, k, b1, a[|a| - 1], b2, sqrt);
  }

  /** The totals do not depend on the order in which candidates are met. */
  lemma {:induction false} AccumulatePermutation(boids: seq<Boid>, k: nat, a: seq<nat>, b: seq<nat>, sqrt: real -> real)
    requires k < |boids| && Below(a, |boids|)
    requires multiset(a) == multiset(b)
    ensures Below(b, |boids|)
    ensures Accumulate(boids, k, a, sqrt) == Accumulate(boids, k, b, sqrt)
    decreases |a|
  {
    BelowPermutation(a, b, |boids|);
    if |a| > 0 {
      var b1, b2 := MatchLast(a, b, |boids|);
      AccumulatePermutation(boids, k, a[..|a| - 1], b1 + b2, sqrt);
      PermutationStep(boids, k, a, b1, b2, sqrt);
    } else {
      assert b == [];
    }
  }

  /** The candidates `k` actually sees, in order. */
  function Seen(boids: seq<Boid>, k: nat, cands: seq<nat>, sqrt: real -> real): (r: seq<nat>)
    requires k < |boids| && Below(cands, |boids|)
    ensures Below(r, |boids|)
    decreases |cands|
  {
    if |cands| == 0 then []
    else
      var last := |cands| - 1;
      Seen(boids, k, cands[..last], sqrt) + (if Sees(boids, k, cands[last], sqrt) then [cands[last]] else [])
  }

  /** Filtering keeps every occurrence of a boid `k` sees and drops every other. */
  lemma {:induction false} SeenCount(boids: seq<Boid>, k: nat, cands: seq<nat>, o: nat, sqrt: real -> real)
    requires k < |boids| && Below(cands, |boids|) && o < |boids|
    ensures multiset(Seen(boids, k, cands, sqrt))[o] ==
      if Sees(boids, k, o, sqrt) then multiset(cands)[o] else 0
    decreases |cands|
  {
    if |cands| > 0 {
      var last := |cands| - 1;
      assert cands == cands[..last] + [cands[last]];
      SeenCount(boids, k, cands[..last], o, sqrt);
    }
  }

  /** A candidate `k` does not see adds nothing to its totals. */
  lemma {:induction false} UnseenAddsNothing(boids: seq<Boid>, k: nat, o: nat, sqrt: real -> real)
    requires k < |boids| && o < |boids|
    requires !Sees(boids, k, o, sqrt)
    ensures Contribution(boids, k, o, sqrt) == NoSums
  {
  }

  /** The inductive step of `AccumulateSeen` when the last candidate is seen:
      the filter keeps it, and it adds its share on both sides. */
  lemma {:induction false} SeenStepKept(boids: seq<Boid>, k: nat, cands: seq<nat>, sqrt: real -> real)
    requires k < |boids| && Below(cands, |boids|) && |cands| > 0
    requires Sees(boids, k, cands[|cands| - 1], sqrt)
    requires Accumulate(boids, k, Seen(boids, k, cands[..|cands| - 1], sqrt), sqrt) ==
             Accumulate(boids, k, cands[..|cands| - 1], sqrt)
    ensures Accumulate(boids, k, Seen(boids, k, cands, sqrt), sqrt) == Accumulate(boids, k, cands, sqrt)
  {
    var init := cands[..|cands| - 1];
    var o := cands[|cands| - 1];
    assert Seen(boids, k, cands, sqrt) == Seen(boids, k, init, sqrt) + [o];
    AccumulateSnoc(boids, k, Seen(boids, k, init, sqrt), o, sqrt);
  }

  /** The inductive step of `AccumulateSeen` when the last candidate is not
      seen: the filter drops it, and it adds nothing. */
  lemma {:induction false} SeenStepDropped(boids: seq<Boid>, k: nat, cands: seq<nat>, sqrt: real -> real)
    requires k < |boids| && Below(cands, |boids|) && |cands| > 0
    requires !Sees(boids, k, cands[|cands| - 1], sqrt)
    requires Accumulate(boids, k, Seen(boids, k, cands[..|cands| - 1], sqrt), sqrt) ==
             Accumulate(boids, k, cands[..|cands| - 1], sqrt)
    ensures Accumulate(boids, k, Seen(boids, k, cands, sqrt), sqrt) == Accumulate(boids, k, cands, sqrt)
  {
    var init := cands[..|cands| - 1];
    assert Seen(boids, k, cands, sqrt) == Seen(boids, k, init, sqrt);
    UnseenAddsNothing(boids, k, cands[|cands| - 1], sqrt);
    NoSumsPlus(Accumulate(boids, k, init, sqrt));
  }

  /** Candidates out of sight contribute nothing. */
  lemma {:induction false} AccumulateSeen(boids: seq<Boid>, k: nat, cands: seq<nat>, sqrt: real -> real)
    requires k < |boids| && Below(cands, |boids|)
    ensures Accumulate(boids, k, Seen(boids, k, cands, sqrt), sqrt) == Accumulate(boids, k, cands, sqrt)
    decreases |cands|
  {
    if |cands| > 0 {
      AccumulateSeen(boids, k, cands[..|cands| - 1], sqrt);
      if Sees(boids, k, cands[|cands| - 1], sqrt) {
        SeenStepKept(boids, k, cands, sqrt);
      } else {
        SeenStepDropped(boids, k, cands, sqrt);
      }
    }
  }

  function Positions(boids: seq<Boid>): (ps: seq<Vector>)
    ensures |ps| == |boids| && forall k :: 0 <= k < |boids| ==> ps[k] == boids[k].pos
  {
    seq(|boids|, k requires 0 <= k < |boids| => boids[k].pos)
  }

  /** A boid in sight of `k` is gathered exactly once, as it appears once in
      the whole flock; a boid out of sight is dropped from both. */
  lemma {:induction false} SeenCountsAgree(m: Matrix, boids: seq<Boid>, k: nat, o: nat, sqrt: real -> real)
    requires IsSqrt(sqrt)
    requires Populated(m, Positions(boids))
    requires k < |boids| && Interior(CellOf(boids[k].pos))
    requires InBounds(m, CellOf(boids[k].pos)) && Below(Gather(m, CellOf(boids[k].pos)), |boids|)
    ensures multiset(Seen(boids, k, Gather(m, CellOf(boids[k].pos)), sqrt))[o] ==
            multiset(Seen(boids, k, Range(|boids|), sqrt))[o]
  {
    var ps := Positions(boids);
    var c := CellOf(ps[k]);
    var g := Gather(m, c);
    RangeBelow(|boids|);
    var all := Range(|boids|);
    if o < |boids| {
      SeenCount(boids, k, g, o, sqrt);
      SeenCount(boids, k, all, o, sqrt);
      if Sees(boids, k, o, sqrt) {
        RangeCount(|boids|, o);
        GatherCount(m, ps, c, o);
        DistLessIff(ps[k], ps[o], VisionRadius, sqrt);
        DistSqSymmetric(ps[k], ps[o]);
        WithinVisionAdjacent(ps[o], ps[k]);
      }
    } else {
      BelowAbsent(Seen(boids, k, g, sqrt), |boids|, o);
      BelowAbsent(Seen(boids, k, all, sqrt), |boids|, o);
    }
  }

  /** The grid changes nothing: for a boid in an interior cell (every boid
      inside the arena is, by `ArenaCellInterior`), the totals over the nine
      gathered buckets equal the totals over the whole flock. */
  lemma {:induction false} GridMatchesBruteForce(m: Matrix, boids: seq<Boid>, k: nat, sqrt: real -> real)
    requires IsSqrt(sqrt)
    requires Populated(m, Positions(boids))
    requires k < |boids| && Interior(CellOf(boids[k].pos))
    ensures InBounds(m, CellOf(boids[k].pos))
    ensures Below(Gather(m, CellOf(boids[k].pos)), |boids|)
    ensures Accumulate(boids, k, Gather(m, CellOf(boids[k].pos)), sqrt) ==
            Accumulate(boids, k, Range(|boids|), sqrt)
  {
    var ps := Positions(boids);
    var c := CellOf(ps[k]);
    PopulatedBelow(m, ps);
    GatherBelow(m, c, |boids|);
    RangeBelow(|boids|);
    var g: seq<nat> := Gather(m, c);
    var all: seq<nat> := Range(|boids|);
    var sg: seq<nat> := Seen(boids, k, g, sqrt);
    var sa: seq<nat> := Seen(boids, k, all, sqrt);
    forall o: nat
      ensures multiset(sg)[o] == multiset(sa)[o]
    {
      SeenCountsAgree(m, boids, k, o, sqrt);
    }
    assert multiset(sg) == multiset(sa);
    AccumulateSeen(boids, k, g, sqrt);
    AccumulateSeen(boids, k, all, sqrt);
    AccumulatePermutation(boids, k, sg, sa, sqrt);
  }

  /** The distance tests agree with tests on squared distances, which need no
      square root. */
  lemma {:induction false} ClassifyBySquares(a: Vector, b: Vector, sqrt: real -> real)
    requires IsSqrt(sqrt)
    ensures Dist(a, b, sqrt) < ProtectedRadius <==> DistSq(a, b) < Sq(ProtectedRadius)
    ensures Dist(a, b, sqrt) < VisionRadius <==> DistSq(a, b) < Sq(VisionRadius)
  {
    DistLessIff(a, b, ProtectedRadius, sqrt);
    DistLessIff(a, b, VisionRadius, sqrt);
  }

  /** The classification without square roots: apart from the boid itself,
      a candidate pushes when its squared distance is below the squared
      protected radius, and is counted when it is below the squared vision
      radius but not the protected one. */
  lemma {:induction false} ContributionBySquares(boids: seq<Boid>, k: nat, o: nat, sqrt: real -> real)
    requires IsSqrt(sqrt)
    requires k < |boids| && o < |boids|
    ensures var d2 := DistSq(boids[k].pos, boids[o].pos);
      Contribution(boids, k, o, sqrt) ==
        if o == k then NoSums
        else if d2 < Sq(ProtectedRadius) then Sums(boids[k].pos.Sub(boids[o].pos), Zero, Zero, 0)
        else if d2 < Sq(VisionRadius) then Sums(Zero, boids[o].vel, boids[o].pos, 1)
        else NoSums
  {
    ClassifyBySquares(boids[k].pos, boids[o].pos, sqrt);
  }

  /** A boid sitting exactly on another is inside the protected radius but
      adds no push, since the difference of equal positions is zero. */
  lemma {:induction false} CoincidentNoPush(boids: seq<Boid>, k: nat, o: nat, sqrt: real -> real)
    requires IsSqrt(sqrt)
    requires k < |boids| && o < |boids| && o != k
    requires boids[k].pos == boids[o].pos
    ensures Contribution(boids, k, o, sqrt) == NoSums
  {
    var v := boids[k].pos.Sub(boids[o].pos);
    assert v == Zero;
    MagPositive(v, sqrt);
  }

  // ---------------------------------------------------------------------
  // Forces
  // ---------------------------------------------------------------------

  lemma {:induction false} MulInverse(x: real, c: real)
    requires c != 0.0
    ensures (x * (1.0 / c)) * c == x
  {
  }

  /** `averageVel` and `averagePos`: the totals divided by the neighbour count,
      when there is at least one neighbour; otherwise the totals as they are. */
  function Averages(s: Sums): (r: (Vector, Vector))
    ensures s.count > 0 ==>
      r.0.Scale(s.count as real) == s.vel && r.1.Scale(s.count as real) == s.pos
    ensures s.count == 0 ==> r == (s.vel, s.pos)
  {
    if s.count > 0 then
      var c := s.count as real;
      MulInverse(s.vel.x, c);
      MulInverse(s.vel.y, c);
      MulInverse(s.pos.x, c);
      MulInverse(s.pos.y, c);
      (s.vel.Scale(1.0 / c), s.pos.Scale(1.0 / c))
    else
      (s.vel, s.pos)
  }

  /** Three draws of `Math.random()` for a boid's random push: two for the
      direction, one for the strength. */
  datatype Draw3 = Draw3(dx: real, dy: real, size: real)

  predicate UnitDraw3(d: Draw3) {
    UnitDraw(d.dx) && UnitDraw(d.dy) && UnitDraw(d.size)
  }

  /** `new Vector(random(-1,1), random(-1,1)).unit().mult(random(0, RANDOMNESS))`. */
  function Jitter(d: Draw3, sqrt: real -> real): Vector {
    Unit(Vector(Random(-1.0, 1.0, d.dx), Random(-1.0, 1.0, d.dy)), sqrt)
      .Scale(Random(0.0, Randomness, d.size))
  }

  /** The random push is shorter than `RANDOMNESS`. */
  lemma {:induction false} JitterBound(d: Draw3, sqrt: real -> real)
    requires IsSqrt(sqrt) && UnitDraw3(d)
    ensures Jitter(d, sqrt).MagSq() < Sq(Randomness)
  {
    var s := Random(0.0, Randomness, d.size);
    ScaledUnitMagSq(Vector(Random(-1.0, 1.0, d.dx), Random(-1.0, 1.0, d.dy)), s, sqrt);
    SqLess(s, Randomness);
  }

  /** The four velocity updates in the order the source applies them: random
      push, matching, centring, avoidance. Each reads the velocity the
      previous one wrote. */
  function Steer(vel: Vector, pos: Vector, s: Sums, jitter: Vector): Vector {
    var (avgVel, avgPos) := Averages(s);
    var v1 := vel.Add(jitter);
    var v2 := v1.Add(avgVel.Sub(v1).Scale(MatchFactor));
    var v3 := v2.Add(avgPos.Sub(pos).Scale(CenterFactor));
    v3.Add(s.avoid.Scale(AvoidFactor))
  }

  /** The four updates in one formula: the pushed velocity keeps `1 - MATCH`
      of itself, and gains `MATCH` of the neighbours' mean velocity, `CENTER`
      of the offset to their mean position and `AVOID` of the push away. */
  lemma {:induction false} SteerClosedForm(vel: Vector, pos: Vector, s: Sums, jitter: Vector)
    ensures Steer(vel, pos, s, jitter) ==
      vel.Add(jitter).Scale(1.0 - MatchFactor)
        .Add(Averages(s).0.Scale(MatchFactor))
        .Add(Averages(s).1.Sub(pos).Scale(CenterFactor))
        .Add(s.avoid.Scale(AvoidFactor))
  {
  }

  /** A boid that sees no neighbour is still "matched" and "centred": with
      zero totals it is slowed by `MATCH` and drawn toward the origin of the
      canvas by `CENTER`. */
  lemma {:induction false} LoneBoidDrift(vel: Vector, pos: Vector, s: Sums, jitter: Vector)
    requires s.count == 0 && s.vel == Zero && s.pos == Zero
    ensures Steer(vel, pos, s, jitter) ==
      vel.Add(jitter).Scale(0.95).Sub(pos.Scale(0.0005)).Add(s.avoid.Scale(0.25))
  {
  }

  /** The scouts' update `v*(1-bias) + unit(goal - pos)*bias`. */
  function Blend(v: Vector, pos: Vector, goal: Vector, bias: real, sqrt: real -> real): Vector {
    v.Scale(1.0 - bias).Add(Unit(goal.Sub(pos), sqrt).Scale(bias))
  }

  /** A vector of length one, scaled by `m`, has dot product `m` with it. */
  lemma {:induction false} DotScaled(u: Vector, m: real, v: Vector)
    requires u.Scale(m) == v && u.MagSq() == 1.0
    ensures u.Dot(v) == m
  {
    assert u.x * (u.x * m) == m * Sq(u.x);
    assert u.y * (u.y * m) == m * Sq(u.y);
    assert u.Dot(v) == m * u.MagSq();
  }

  lemma {:induction false} DotZero(u: Vector)
    ensures u.Dot(Zero) == 0.0
  {
  }

  /** The unit of `v` dotted with `v` is the length of `v`. */
  lemma {:induction false} UnitDot(v: Vector, sqrt: real -> real)
    requires IsSqrt(sqrt)
    ensures Unit(v, sqrt).Dot(v) == Mag(v, sqrt)
  {
    var u := Unit(v, sqrt);
    var m := Mag(v, sqrt);
    UnitProperties(v, sqrt);
    if v != Zero {
      DotScaled(u, m, v);
      assert u.Dot(v) == m;
    } else {
      MagPositive(v, sqrt);
      DotZero(u);
    }
  }

  /** The goal term of a blend has length `bias` and points at the goal: its
      dot product with the offset to the goal is `bias` times the distance. */
  lemma {:induction false} BlendTowardGoal(v: Vector, pos: Vector, goal: Vector, bias: real, sqrt: real -> real)
    requires IsSqrt(sqrt)
    requires pos != goal
    ensures Blend(v, pos, goal, bias, sqrt).Sub(v.Scale(1.0 - bias)).MagSq() == Sq(bias)
    ensures Blend(v, pos, goal, bias, sqrt).Sub(v.Scale(1.0 - bias)).Dot(goal.Sub(pos)) ==
            bias * Dist(goal, pos, sqrt)
  {
    var d := goal.Sub(pos);
    var u := Unit(d, sqrt);
    assert d != Zero;
    UnitProperties(d, sqrt);
    UnitDot(d, sqrt);
    var t := Blend(v, pos, goal, bias, sqrt).Sub(v.Scale(1.0 - bias));
    assert t == u.Scale(bias);
    ScaleMagSq(u, bias);
    assert t.Dot(d) == bias * u.Dot(d);
  }

  /** The scout rules: a scout of the first kind blends toward `FOOD_POS1`,
      then a scout of the second kind toward `FOOD_POS2`. */
  function ScoutSteer(b: Boid, v: Vector, sqrt: real -> real): Vector {
    var v1 := if b.isScout1 then Blend(v, b.pos, FoodPos1, b.biasVal, sqrt) else v;
    if b.isScout2 then Blend(v1, b.pos, FoodPos2, b.biasVal, sqrt) else v1
  }

  /** The scout rules by role. A boid with no role keeps its velocity. A
      scout of the first kind gets the `FOOD_POS1` blend, whose goal term has
      length `biasVal` and points at `FOOD_POS1`. A scout of the second kind
      gets the `FOOD_POS2` blend, applied after the first one when the boid
      has both roles, with a goal term of length `biasVal` pointing at
      `FOOD_POS2`. */
  lemma {:induction false} ScoutSteerRoles(b: Boid, v: Vector, sqrt: real -> real)
    requires IsSqrt(sqrt)
    ensures !b.isScout1 && !b.isScout2 ==> ScoutSteer(b, v, sqrt) == v
    ensures b.isScout1 && !b.isScout2 ==> ScoutSteer(b, v, sqrt) == Blend(v, b.pos, FoodPos1, b.biasVal, sqrt)
    ensures !b.isScout1 && b.isScout2 ==> ScoutSteer(b, v, sqrt) == Blend(v, b.pos, FoodPos2, b.biasVal, sqrt)
    ensures b.isScout1 && b.isScout2 ==>
      ScoutSteer(b, v, sqrt) == Blend(Blend(v, b.pos, FoodPos1, b.biasVal, sqrt), b.pos, FoodPos2, b.biasVal, sqrt)
    ensures b.isScout1 && !b.isScout2 && b.pos != FoodPos1 ==>
      ScoutSteer(b, v, sqrt).Sub(v.Scale(1.0 - b.biasVal)).MagSq() == Sq(b.biasVal) &&
      ScoutSteer(b, v, sqrt).Sub(v.Scale(1.0 - b.biasVal)).Dot(FoodPos1.Sub(b.pos)) ==
        b.biasVal * Dist(FoodPos1, b.pos, sqrt)
    ensures !b.isScout1 && b.isScout2 && b.pos != FoodPos2 ==>
      ScoutSteer(b, v, sqrt).Sub(v.Scale(1.0 - b.biasVal)).MagSq() == Sq(b.biasVal) &&
      ScoutSteer(b, v, sqrt).Sub(v.Scale(1.0 - b.biasVal)).Dot(FoodPos2.Sub(b.pos)) ==
        b.biasVal * Dist(FoodPos2, b.pos, sqrt)
    ensures b.isScout1 && b.isScout2 && b.pos != FoodPos2 ==>
      var w := Blend(v, b.pos, FoodPos1, b.biasVal, sqrt);
      ScoutSteer(b, v, sqrt).Sub(w.Scale(1.0 - b.biasVal)).MagSq() == Sq(b.biasVal) &&
      ScoutSteer(b, v, sqrt).Sub(w.Scale(1.0 - b.biasVal)).Dot(FoodPos2.Sub(b.pos)) ==
        b.biasVal * Dist(FoodPos2, b.pos, sqrt)
  {
    var w := Blend(v, b.pos, FoodPos1, b.biasVal, sqrt);
    if b.isScout1 && !b.isScout2 && b.pos != FoodPos1 {
      BlendTowardGoal(v, b.pos, FoodPos1, b.biasVal, sqrt);
    }
    if b.isScout2 && b.pos != FoodPos2 {
      BlendTowardGoal(if b.isScout1 then w else v, b.pos, FoodPos2, b.biasVal, sqrt);
    }
  }

  /** The speed clamp: below `MIN_SPEED` the velocity is stretched to it, and
      the result, if above `MAX_SPEED`, is shrunk to it. A boid at rest stays
      at rest whatever `sqrt` is, since `unit` of zero is zero. */
  function ClampSpeed(v: Vector, sqrt: real -> real): (r: Vector)
    ensures v == Zero ==> r == Zero
  {
    var v1 := if Mag(v, sqrt) < MinSpeed then Unit(v, sqrt).Scale(MinSpeed) else v;
    if Mag(v1, sqrt) > MaxSpeed then Unit(v1, sqrt).Scale(MaxSpeed) else v1
  }

  /** A velocity the clamp can produce: at rest, or a speed between the limits. */
  predicate SpeedOk(v: Vector) {
    v == Zero || Sq(MinSpeed) <= v.MagSq() <= Sq(MaxSpeed)
  }

  /** A non-zero vector rescaled to length `s > 0` has length `s`. */
  lemma {:induction false} RescaledLength(v: Vector, s: real, sqrt: real -> real)
    requires IsSqrt(sqrt)
    requires v != Zero && s > 0.0
    ensures Unit(v, sqrt).Scale(s).MagSq() == Sq(s)
    ensures Mag(Unit(v, sqrt).Scale(s), sqrt) == s
    ensures Unit(v, sqrt).Scale(s) != Zero
  {
    var w := Unit(v, sqrt).Scale(s);
    UnitProperties(v, sqrt);
    ScaleMagSq(Unit(v, sqrt), s);
    SqrtOfSq(sqrt, s);
    SqSign(s);
    MagSqSign(w);
  }

  lemma {:induction false} MulDivCancel(a: real, s: real)
    requires s != 0.0
    ensures (a * s) / s == a
  {
  }

  /** Rescaling the unit of `v` to a positive length keeps its direction. */
  lemma {:induction false} UnitOfScaledUnit(v: Vector, s: real, sqrt: real -> real)
    requires IsSqrt(sqrt)
    requires v != Zero && s > 0.0
    ensures Unit(Unit(v, sqrt).Scale(s), sqrt) == Unit(v, sqrt)
  {
    var u := Unit(v, sqrt);
    RescaledLength(v, s, sqrt);
    MulDivCancel(u.x, s);
    MulDivCancel(u.y, s);
  }

  /** The length of `v` compared with a bound, in squares. */
  lemma {:induction false} MagCompare(v: Vector, bound: real, sqrt: real -> real)
    requires IsSqrt(sqrt) && bound >= 0.0
    ensures Mag(v, sqrt) < bound <==> v.MagSq() < Sq(bound)
    ensures Mag(v, sqrt) > bound <==> v.MagSq() > Sq(bound)
  {
    var m := Mag(v, sqrt);
    MagPositive(v, sqrt);
    MagSqSign(v);
    assert Sq(m) == v.MagSq();
    SqLess(m, bound);
    SqLess(bound, m);
  }

  /** The clamp brings every moving boid's speed into `[MIN_SPEED, MAX_SPEED]`,
      keeps a speed already there, and stops only a boid already at rest. A
      boid too slow ends exactly at `MIN_SPEED`, one too fast exactly at
      `MAX_SPEED`, and a moving boid keeps its direction. */
  lemma {:induction false} ClampSpeedBounds(v: Vector, sqrt: real -> real)
    requires IsSqrt(sqrt)
    ensures SpeedOk(ClampSpeed(v, sqrt))
    ensures ClampSpeed(v, sqrt) == Zero <==> v == Zero
    ensures Sq(MinSpeed) <= v.MagSq() <= Sq(MaxSpeed) ==> ClampSpeed(v, sqrt) == v
    ensures 0.0 < v.MagSq() < Sq(MinSpeed) ==> ClampSpeed(v, sqrt).MagSq() == Sq(MinSpeed)
    ensures v.MagSq() > Sq(MaxSpeed) ==> ClampSpeed(v, sqrt).MagSq() == Sq(MaxSpeed)
    ensures v != Zero ==> Unit(ClampSpeed(v, sqrt), sqrt) == Unit(v, sqrt)
  {
    MagCompare(v, MinSpeed, sqrt);
    MagCompare(v, MaxSpeed, sqrt);
    MagSqSign(v);
    if v != Zero {
      if Mag(v, sqrt) < MinSpeed {
        RescaledLength(v, MinSpeed, sqrt);
        UnitOfScaledUnit(v, MinSpeed, sqrt);
      } else if Mag(v, sqrt) > MaxSpeed {
        RescaledLength(v, MaxSpeed, sqrt);
        UnitOfScaledUnit(v, MaxSpeed, sqrt);
      }
    }
  }

  /** The velocity a boid leaves the force phase with, given the current
      flock, its candidates and its three random draws. */
  function NewVelocity(boids: seq<Boid>, k: nat, cands: seq<nat>, d: Draw3, sqrt: real -> real): Vector
    requires k < |boids| && Below(cands, |boids|)
  {
    var b := boids[k];
    var s := Accumulate(boids, k, cands, sqrt);
    ClampSpeed(ScoutSteer(b, Steer(b.vel, b.pos, s, Jitter(d, sqrt)), sqrt), sqrt)
  }

  /** Every new velocity is at rest or within the speed limits. */
  lemma {:induction false} NewVelocitySpeed(boids: seq<Boid>, k: nat, cands: seq<nat>, d: Draw3, sqrt: real -> real)
    requires IsSqrt(sqrt)
    requires k < |boids| && Below(cands, |boids|)
    ensures SpeedOk(NewVelocity(boids, k, cands, d, sqrt))
  {
    var b := boids[k];
    ClampSpeedBounds(ScoutSteer(b, Steer(b.vel, b.pos, Accumulate(boids, k, cands, sqrt), Jitter(d, sqrt)), sqrt), sqrt);
  }

  /** For a boid in an interior cell, the grid-based velocity is the velocity
      that comparing against every boid of the flock would give. */
  lemma {:induction false} NewVelocityMatchesBruteForce(m: Matrix, boids: seq<Boid>, k: nat, d: Draw3, sqrt: real -> real)
    requires IsSqrt(sqrt)
    requires Populated(m, Positions(boids))
    requires k < |boids| && Interior(CellOf(boids[k].pos))
    ensures InBounds(m, CellOf(boids[k].pos))
    ensures Below(Gather(m, CellOf(boids[k].pos)), |boids|)
    ensures Below(Range(|boids|), |boids|)
    ensures NewVelocity(boids, k, Gather(m, CellOf(boids[k].pos)), d, sqrt) ==
            NewVelocity(boids, k, Range(|boids|), d, sqrt)
  {
    GridMatchesBruteForce(m, boids, k, sqrt);
  }

  // ---------------------------------------------------------------------
  // The sweep
  // ---------------------------------------------------------------------

  /** Two boids that differ at most in their velocity. */
  predicate SameButVel(a: Boid, b: Boid) {
    a.pos == b.pos && a.isScout1 == b.isScout1 && a.isScout2 == b.isScout2 && a.biasVal == b.biasVal
  }

  /** One boid's turn in the force phase: its velocity is replaced and no
      other boid changes. */
  function Visit(boids: seq<Boid>, k: nat, cands: seq<nat>, d: Draw3, sqrt: real -> real): (r: seq<Boid>)
    requires k < |boids| && Below(cands, |boids|)
    ensures |r| == |boids|
    ensures r[k].vel == NewVelocity(boids, k, cands, d, sqrt)
    ensures forall i :: 0 <= i < |boids| ==> SameButVel(r[i], boids[i])
    ensures forall i :: 0 <= i < |boids| && i != k ==> r[i] == boids[i]
  {
    boids[k := boids[k].(vel := NewVelocity(boids, k, cands, d, sqrt))]
  }

  /** The boids of one bucket, in bucket order, each taking the next draw. */
  function SweepBucket(boids: seq<Boid>, bucket: seq<nat>, cands: seq<nat>, draws: seq<Draw3>,
                       sqrt: real -> real): (r: seq<Boid>)
    requires Below(bucket, |boids|) && Below(cands, |boids|)
    requires |bucket| <= |draws|
    ensures |r| == |boids|
    ensures forall i :: 0 <= i < |boids| ==> SameButVel(r[i], boids[i])
    ensures forall i :: 0 <= i < |boids| && i !in bucket ==> r[i] == boids[i]
    decreases |bucket|
  {
    if |bucket| == 0 then boids
    else
      var last := |bucket| - 1;
      var prev := SweepBucket(boids, bucket[..last], cands, draws, sqrt);
      Visit(prev, bucket[last], cands, draws[last], sqrt)
  }

  /** Every boid listed is a boid of `bs` at rest or within the speed limits. */
  predicate SpeedsOk(bs: seq<Boid>, list: seq<nat>) {
    forall i :: i in list ==> i < |bs| && SpeedOk(bs[i].vel)
  }

  /** Updating boid `k` alone, with an acceptable speed, keeps the speeds of
      the boids listed before it and adds `k` to the list. */
  lemma {:induction false} UpdateKeepsSpeeds(prev: seq<Boid>, r: seq<Boid>, list: seq<nat>, k: nat)
    requires |r| == |prev| && k < |prev|
    requires SpeedOk(r[k].vel)
    requires forall i :: 0 <= i < |prev| && i != k ==> r[i] == prev[i]
    requires SpeedsOk(prev, list)
    ensures SpeedsOk(r, list + [k])
  {
    forall i | i in list + [k]
      ensures i < |r| && SpeedOk(r[i].vel)
    {
      if i != k {
        assert i in list;
      }
    }
  }

  /** Every boid of the bucket leaves it at rest or within the speed limits. */
  lemma {:induction false} SweepBucketSpeed(boids: seq<Boid>, bucket: seq<nat>, cands: seq<nat>,
                                            draws: seq<Draw3>, sqrt: real -> real)
    requires IsSqrt(sqrt)
    requires Below(bucket, |boids|) && Below(cands, |boids|)
    requires |bucket| <= |draws|
    ensures SpeedsOk(SweepBucket(boids, bucket, cands, draws, sqrt), bucket)
    decreases |bucket|
  {
    if |bucket| > 0 {
      var last := |bucket| - 1;
      var init := bucket[..last];
      var k := bucket[last];
      assert bucket == init + [k];
      SweepBucketSpeed(boids, init, cands, draws, sqrt);
      var prev := SweepBucket(boids, init, cands, draws, sqrt);
      NewVelocitySpeed(prev, k, cands, draws[last], sqrt);
      UpdateKeepsSpeeds(prev, Visit(prev, k, cands, draws[last], sqrt), init, k);
    }
  }

  /** `physics`' double loop over the first `n` cells in row-major order,
      skipping empty buckets. The draws are consumed in visiting order: the
      `t`-th boid visited uses `draws[t]`. */
  function Sweep(m: Matrix, boids: seq<Boid>, n: nat, draws: seq<Draw3>, sqrt: real -> real): (r: seq<Boid>)
    requires WellShaped(m) && m.rows == Rows && m.cols == Cols && IndicesBelow(m, |boids|)
    requires n <= Rows * Cols
    requires |Flatten(m, n)| <= |draws|
    ensures |r| == |boids|
    ensures forall i :: 0 <= i < |boids| ==> SameButVel(r[i], boids[i])
    ensures forall i :: 0 <= i < |boids| && i !in Flatten(m, n) ==> r[i] == boids[i]
  {
    if n == 0 then boids
    else
      RowMajorInBounds(n - 1);
      var c := RowMajor(n - 1);
      var prev := Sweep(m, boids, n - 1, draws, sqrt);
      var bucket := Bucket(m, c);
      if |bucket| == 0 then prev
      else
        GatherBelow(m, c, |boids|);
        BucketBelow(m, c, |boids|);
        var used := |Flatten(m, n - 1)|;
        SweepBucket(prev, bucket, Gather(m, c), draws[used..], sqrt)
  }

  /** Sweeping one more bucket keeps the speeds of the boids met before and
      adds the bucket's boids. */
  lemma {:induction false} BucketKeepsSpeeds(prev: seq<Boid>, r: seq<Boid>, before: seq<nat>, bucket: seq<nat>)
    requires |r| == |prev|
    requires SpeedsOk(prev, before) && SpeedsOk(r, bucket)
    requires forall i :: 0 <= i < |prev| && i !in bucket ==> r[i] == prev[i]
    ensures SpeedsOk(r, before + bucket)
  {
    forall i | i in before + bucket
      ensures i < |r| && SpeedOk(r[i].vel)
    {
      if i !in bucket {
        assert i in before;
      }
    }
  }

  /** After sweeping the first `n` cells, every boid met so far is at rest or
      within the speed limits. */
  lemma {:induction false} SweepSpeed(m: Matrix, boids: seq<Boid>, n: nat, draws: seq<Draw3>, sqrt: real -> real)
    requires IsSqrt(sqrt)
    requires WellShaped(m) && m.rows == Rows && m.cols == Cols && IndicesBelow(m, |boids|)
    requires n <= Rows * Cols
    requires |Flatten(m, n)| <= |draws|
    ensures SpeedsOk(Sweep(m, boids, n, draws, sqrt), Flatten(m, n))
  {
    if n > 0 {
      RowMajorInBounds(n - 1);
      assert |Flatten(m, n - 1)| <= |Flatten(m, n)|;
      SweepSpeed(m, boids, n - 1, draws, sqrt);
      SweepStepSpeed(m, boids, n, draws, sqrt);
    }
  }

  /** Sweeping cell `n - 1` keeps the speeds of the boids met in the cells
      before it and brings its own boids within the limits. */
  lemma {:induction false} SweepStepSpeed(m: Matrix, boids: seq<Boid>, n: nat, draws: seq<Draw3>, sqrt: real -> real)
    requires IsSqrt(sqrt)
    requires WellShaped(m) && m.rows == Rows && m.cols == Cols && IndicesBelow(m, |boids|)
    requires 0 < n <= Rows * Cols
    requires |Flatten(m, n)| <= |draws|
    requires SpeedsOk(Sweep(m, boids, n - 1, draws, sqrt), Flatten(m, n - 1))
    ensures SpeedsOk(Sweep(m, boids, n, draws, sqrt), Flatten(m, n))
  {
    // Only the contracts of the bucket lemmas are needed here; unfolding the
    // visits and the speed test through them swamps the solver.
    hide SweepBucket, SpeedOk;
    RowMajorInBounds(n - 1);
    var c := RowMajor(n - 1);
    var before := Flatten(m, n - 1);
    var bucket := Bucket(m, c);
    var prev := Sweep(m, boids, n - 1, draws, sqrt);
    if |bucket| > 0 {
      GatherBelow(m, c, |boids|);
      BucketBelow(m, c, |boids|);
      var rest := draws[|before|..];
      SweepBucketSpeed(prev, bucket, Gather(m, c), rest, sqrt);
      BucketKeepsSpeeds(prev, SweepBucket(prev, bucket, Gather(m, c), rest, sqrt), before, bucket);
    } else {
      assert Flatten(m, n) == before;
    }
  }

  /** The force phase over a grid populated from the flock: it visits every
      boid, so afterwards every boid is at rest or within the speed limits. */
  lemma {:induction false} ForcePhaseSpeed(m: Matrix, boids: seq<Boid>, draws: seq<Draw3>, sqrt: real -> real)
    requires IsSqrt(sqrt)
    requires Populated(m, Positions(boids)) && AllInGrid(Positions(boids))
    requires |draws| == |boids|
    ensures IndicesBelow(m, |boids|) && Rows * Cols == 1479 && |Flatten(m, Rows * Cols)| <= |draws|
    ensures forall i :: 0 <= i < |boids| ==> SpeedOk(Sweep(m, boids, Rows * Cols, draws, sqrt)[i].vel)
  {
    var ps := Positions(boids);
    PopulatedBelow(m, ps);
    SweepOrderIsPermutation(m, ps);
    SweepSpeed(m, boids, Rows * Cols, draws, sqrt);
    forall i | 0 <= i < |boids|
      ensures i in Flatten(m, Rows * Cols)
    {
      RangeCount(|boids|, i);
      assert multiset(Flatten(m, Rows * Cols))[i] == 1;
    }
  }

  // ---------------------------------------------------------------------
  // The grid is only an optimisation
  // ---------------------------------------------------------------------

  /** The same sweep, but with every boid compared against the whole flock
      instead of the nine gathered buckets. */
  function SweepBrute(m: Matrix, boids: seq<Boid>, n: nat, draws: seq<Draw3>, sqrt: real -> real): (r: seq<Boid>)
    requires WellShaped(m) && m.rows == Rows && m.cols == Cols && IndicesBelow(m, |boids|)
    requires n <= Rows * Cols
    requires |Flatten(m, n)| <= |draws|
    ensures |r| == |boids|
    ensures forall i :: 0 <= i < |boids| ==> SameButVel(r[i], boids[i])
  {
    if n == 0 then boids
    else
      RowMajorInBounds(n - 1);
      var c := RowMajor(n - 1);
      var prev := SweepBrute(m, boids, n - 1, draws, sqrt);
      var bucket := Bucket(m, c);
      if |bucket| == 0 then prev
      else
        RangeBelow(|boids|);
        BucketBelow(m, c, |boids|);
        var used := |Flatten(m, n - 1)|;
        SweepBucket(prev, bucket, Range(|boids|), draws[used..], sqrt)
  }

  /** Changing velocities only leaves the positions as they were. */
  lemma {:induction false} PositionsSame(a: seq<Boid>, b: seq<Boid>)
    requires |a| == |b| && forall i :: 0 <= i < |a| ==> SameButVel(a[i], b[i])
    ensures Positions(a) == Positions(b)
  {
  }

  /** One visit gives the same result with gathered or with all candidates,
      when the grid was built from the current positions. */
  lemma {:induction false} VisitMatches(m: Matrix, boids: seq<Boid>, k: nat, d: Draw3, sqrt: real -> real)
    requires IsSqrt(sqrt)
    requires Populated(m, Positions(boids))
    requires k < |boids| && Interior(CellOf(boids[k].pos))
    ensures InBounds(m, CellOf(boids[k].pos))
    ensures Below(Gather(m, CellOf(boids[k].pos)), |boids|) && Below(Range(|boids|), |boids|)
    ensures Visit(boids, k, Gather(m, CellOf(boids[k].pos)), d, sqrt) == Visit(boids, k, Range(|boids|), d, sqrt)
  {
    NewVelocityMatchesBruteForce(m, boids, k, d, sqrt);
  }

  /** Sweeping one bucket of cell `c` with the gathered candidates gives the
      same flock as with all candidates. */
  lemma {:induction false} SweepBucketMatches(m: Matrix, boids: seq<Boid>, bucket: seq<nat>, c: Cell,
                                              draws: seq<Draw3>, sqrt: real -> real)
    requires IsSqrt(sqrt)
    requires Populated(m, Positions(boids))
    requires Interior(c) && InBounds(m, c) && IndicesBelow(m, |boids|)
    requires Below(bucket, |boids|) && |bucket| <= |draws|
    requires forall j :: 0 <= j < |bucket| ==> CellOf(boids[bucket[j]].pos) == c
    ensures Below(Gather(m, c), |boids|) && Below(Range(|boids|), |boids|)
    ensures SweepBucket(boids, bucket, Gather(m, c), draws, sqrt) ==
            SweepBucket(boids, bucket, Range(|boids|), draws, sqrt)
    decreases |bucket|
  {
    // The contract of `VisitMatches` is all this proof needs of a visit.
    hide Visit, NewVelocity;
    GatherBelow(m, c, |boids|);
    RangeBelow(|boids|);
    if |bucket| > 0 {
      var last := |bucket| - 1;
      var init := bucket[..last];
      var k := bucket[last];
      SweepBucketMatches(m, boids, init, c, draws, sqrt);
      var prev := SweepBucket(boids, init, Gather(m, c), draws, sqrt);
      PositionsSame(prev, boids);
      assert CellOf(prev[k].pos) == c;
      VisitMatches(m, prev, k, draws[last], sqrt);
    }
  }

  /** Sweeping the bucket of cell `c` over a flock whose positions are those
      the grid was built from: gathered and all candidates agree. */
  lemma {:induction false} BucketStepMatches(m: Matrix, boids: seq<Boid>, prev: seq<Boid>, c: Cell,
                          draws: seq<Draw3>, sqrt: real -> real)
    requires IsSqrt(sqrt)
    requires Populated(m, Positions(boids)) && MarginEmpty(m)
    requires |prev| == |boids| && forall i :: 0 <= i < |prev| ==> SameButVel(prev[i], boids[i])
    requires InBounds(m, c) && |Bucket(m, c)| <= |draws|
    ensures IndicesBelow(m, |prev|)
    ensures Below(Bucket(m, c), |prev|) && Below(Gather(m, c), |prev|) && Below(Range(|prev|), |prev|)
    ensures SweepBucket(prev, Bucket(m, c), Gather(m, c), draws, sqrt) ==
            SweepBucket(prev, Bucket(m, c), Range(|prev|), draws, sqrt)
  {
    PopulatedBelow(m, Positions(boids));
    BucketBelow(m, c, |prev|);
    GatherBelow(m, c, |prev|);
    RangeBelow(|prev|);
    if |Bucket(m, c)| > 0 {
      PositionsSame(prev, boids);
      BucketCells(m, Positions(prev), c);
      SweepBucketMatches(m, prev, Bucket(m, c), c, draws, sqrt);
    }
  }

  /** One more cell of the sweep: if the grid and brute-force sweeps agree
      after `n - 1` cells, and on the next cell's bucket, they agree after `n`. */
  lemma {:induction false} SweepStepMatches(m: Matrix, boids: seq<Boid>, n: nat, draws: seq<Draw3>, sqrt: real -> real)
    requires WellShaped(m) && m.rows == Rows && m.cols == Cols && IndicesBelow(m, |boids|)
    requires 0 < n <= Rows * Cols
    requires |Flatten(m, n)| <= |draws|
    requires |Flatten(m, n - 1)| <= |draws|
    requires Sweep(m, boids, n - 1, draws, sqrt) == SweepBrute(m, boids, n - 1, draws, sqrt)
    requires InBounds(m, RowMajor(n - 1)) && Below(Bucket(m, RowMajor(n - 1)), |boids|)
    requires Below(Gather(m, RowMajor(n - 1)), |boids|) && Below(Range(|boids|), |boids|)
    requires Bucket(m, RowMajor(n - 1)) != [] ==>
      var prev := Sweep(m, boids, n - 1, draws, sqrt);
      var rest := draws[|Flatten(m, n - 1)|..];
      SweepBucket(prev, Bucket(m, RowMajor(n - 1)), Gather(m, RowMajor(n - 1)), rest, sqrt) ==
      SweepBucket(prev, Bucket(m, RowMajor(n - 1)), Range(|boids|), rest, sqrt)
    ensures Sweep(m, boids, n, draws, sqrt) == SweepBrute(m, boids, n, draws, sqrt)
  {
  }

  /** Sweeping the first `n` cells with the grid gives the same flock as
      comparing every boid against the whole flock, visited in the same
      order: the grid changes how candidates are found, not the outcome. */
  lemma {:induction false} SweepMatchesBruteForce(m: Matrix, boids: seq<Boid>, n: nat, draws: seq<Draw3>,
                                                  sqrt: real -> real)
    requires IsSqrt(sqrt)
    requires Populated(m, Positions(boids)) && MarginEmpty(m)
    requires n <= Rows * Cols
    requires |Flatten(m, n)| <= |draws|
    ensures IndicesBelow(m, |boids|)
    ensures Sweep(m, boids, n, draws, sqrt) == SweepBrute(m, boids, n, draws, sqrt)
  {
    PopulatedBelow(m, Positions(boids));
    if n > 0 {
      assert |Flatten(m, n - 1)| <= |Flatten(m, n)|;
      SweepMatchesBruteForce(m, boids, n - 1, draws, sqrt);
      RowMajorInBounds(n - 1);
      var prev := Sweep(m, boids, n - 1, draws, sqrt);
      BucketStepMatches(m, boids, prev, RowMajor(n - 1), draws[|Flatten(m, n - 1)|..], sqrt);
      SweepStepMatches(m, boids, n, draws, sqrt);
    }
  }
}
