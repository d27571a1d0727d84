/** Two-dimensional vectors over exact reals: the `Vector` class of boids.js.

The source computes magnitudes with `Math.sqrt`. Dafny has no square root on
`real`, so every operation that needs one takes the square-root function as a
parameter `sqrt`; the facts that depend on it being a true square root carry
`requires IsSqrt(sqrt)`.

Squares are always written `Sq(a)`: the solver reasons about `Sq(a)` as an
opaque quantity plus the lemmas below, which keeps the arithmetic linear.
 */
module Vectors {

  /** An immutable 2D vector. */
  datatype Vector = Vector(x: real, y: real) {

    /** `add`: componentwise sum. */
    function Add(v: Vector): Vector {
      Vector(x + v.x, y + v.y)
    }

    /** `subtr`: componentwise difference. */
    function Sub(v: Vector): Vector {
      Vector(x - v.x, y - v.y)
    }

    /** `mult`: scaling by a scalar. */
    function Scale(n: real): Vector {
      Vector(x * n, y * n)
    }

    /** `normal`: the vector turned a quarter turn, `(-y, x)`. */
    function Normal(): Vector {
      Vector(-y, x)
    }

    function Neg(): Vector {
      Vector(-x, -y)
    }

    function Dot(v: Vector): real {
      x * v.x + y * v.y
    }

    /** The squared magnitude `x**2 + y**2`, the argument of `Math.sqrt` in `mag`. */
    function MagSq(): real {
      Sq(x) + Sq(y)
    }
  }

  const Zero := Vector(0.0, 0.0)

  function Sq(a: real): real {
    a * a
  }

  /** Squared distance between two points. */
  function DistSq(a: Vector, b: Vector): real {
    a.Sub(b).MagSq()
  }

  /** `sqrt` behaves as the non-negative square root on non-negative reals. */
  ghost predicate IsSqrt(sqrt: real -> real) {
    forall r: real :: 0.0 <= r ==> 0.0 <= sqrt(r) && Sq(sqrt(r)) == r
  }

  /** `mag`. */
  function Mag(v: Vector, sqrt: real -> real): real {
    sqrt(v.MagSq())
  }

  /** `dist`. */
  function Dist(a: Vector, b: Vector, sqrt: real -> real): real {
    Mag(a.Sub(b), sqrt)
  }

  /** `unit`: zero-safe normalisation. The zero vector maps to itself whatever
      `sqrt` is, because the source tests the magnitude against 0 before dividing. */
  function Unit(v: Vector, sqrt: real -> real): (r: Vector)
    ensures v == Zero ==> r == Zero
  {
    var m := Mag(v, sqrt);
    if m == 0.0 then Zero
    else
      DivOfZero(v.x, m);
      DivOfZero(v.y, m);
      Vector(v.x / m, v.y / m)
  }

  lemma DivOfZero(a: real, m: real)
    requires m != 0.0
    ensures a == 0.0 ==> a / m == 0.0
  {
  }

  // Real-arithmetic helpers.

  lemma MulMono(a: real, b: real, c: real, d: real)
    requires 0.0 <= a <= b
    requires 0.0 <= c <= d
    ensures a * c <= b * d
  {
    assert a * c <= b * c;
    assert b * c <= b * d;
  }

  lemma MulStrictMono(a: real, b: real, c: real, d: real)
    requires 0.0 <= a < b
    requires 0.0 <= c < d
    ensures a * c < b * d
  {
    assert a * c <= b * c;
    assert b * c < b * d;
  }

  /** A square is non-negative, and positive exactly off zero. */
  lemma SqSign(a: real)
    ensures Sq(a) >= 0.0
    ensures Sq(a) > 0.0 <==> a != 0.0
  {
    if a < 0.0 {
      MulStrictMono(0.0, -a, 0.0, -a);
      assert (-a) * (-a) == a * a;
    } else if a > 0.0 {
      MulStrictMono(0.0, a, 0.0, a);
    }
  }

  /** Squaring is strictly monotone on the non-negative reals. */
  lemma SqLess(a: real, b: real)
    requires 0.0 <= a && 0.0 <= b
    ensures a < b <==> Sq(a) < Sq(b)
  {
    if a < b {
      MulStrictMono(a, b, a, b);
    } else {
      MulMono(b, a, b, a);
    }
  }

  lemma SqNeg(a: real)
    ensures Sq(-a) == Sq(a)
  {
    assert (-a) * (-a) == a * a;
  }

  lemma SqMul(a: real, k: real)
    ensures Sq(a * k) == Sq(k) * Sq(a)
  {
    assert (a * k) * (a * k) == (k * k) * (a * a);
  }

  /** `|a| < r` exactly when `a² < r²`, for a non-negative bound `r`. */
  lemma SqLessAbs(a: real, r: real)
    requires r >= 0.0
    ensures -r < a < r <==> Sq(a) < Sq(r)
  {
    if a >= 0.0 {
      SqLess(a, r);
    } else {
      SqLess(-a, r);
      SqNeg(a);
    }
  }

  /** A squared magnitude is non-negative, and positive exactly for non-zero vectors. */
  lemma MagSqSign(v: Vector)
    ensures v.MagSq() >= 0.0
    ensures v.MagSq() > 0.0 <==> v != Zero
  {
    SqSign(v.x);
    SqSign(v.y);
  }

  lemma DistSqSymmetric(a: Vector, b: Vector)
    ensures DistSq(a, b) == DistSq(b, a)
    ensures DistSq(a, b) >= 0.0
  {
    SqNeg(a.x - b.x);
    SqNeg(a.y - b.y);
    MagSqSign(a.Sub(b));
  }

  /** Each coordinate difference is bounded by the distance. */
  lemma DistSqBoundsAxes(a: Vector, b: Vector)
    ensures Sq(a.x - b.x) <= DistSq(a, b)
    ensures Sq(a.y - b.y) <= DistSq(a, b)
  {
    SqSign(a.x - b.x);
    SqSign(a.y - b.y);
  }

  lemma AddSubInverse(a: Vector, b: Vector)
    ensures a.Add(b).Sub(b) == a
    ensures a.Sub(b).Add(b) == a
  {
  }

  /** `normal` is perpendicular to its argument, keeps its length, and applied
      twice gives the opposite vector. */
  lemma NormalProperties(v: Vector)
    ensures v.Dot(v.Normal()) == 0.0
    ensures v.Normal().MagSq() == v.MagSq()
    ensures v.Normal().Normal() == v.Neg()
  {
    SqNeg(v.y);
  }

  lemma ScaleMagSq(v: Vector, k: real)
    ensures v.Scale(k).MagSq() == Sq(k) * v.MagSq()
  {
    SqMul(v.x, k);
    SqMul(v.y, k);
  }

  /** The non-negative root of a square is unique. */
  lemma SqrtOfSq(sqrt: real -> real, a: real)
    requires IsSqrt(sqrt)
    requires a >= 0.0
    ensures sqrt(Sq(a)) == a
  {
    SqSign(a);
    var s := sqrt(Sq(a));
    assert s >= 0.0 && Sq(s) == Sq(a);
    SqLess(s, a);
    SqLess(a, s);
  }

  lemma SqrtPositive(sqrt: real -> real, r: real)
    requires IsSqrt(sqrt)
    requires r >= 0.0
    ensures sqrt(r) >= 0.0
    ensures sqrt(r) > 0.0 <==> r > 0.0
  {
    SqSign(sqrt(r));
  }

  /** Comparing a distance against a radius is the same as comparing squared
      distance against the squared radius; the model classifies neighbours this way. */
  lemma DistLessIff(a: Vector, b: Vector, radius: real, sqrt: real -> real)
    requires IsSqrt(sqrt)
    requires radius >= 0.0
    ensures Dist(a, b, sqrt) < radius <==> DistSq(a, b) < Sq(radius)
  {
    MagSqSign(a.Sub(b));
    var d := Dist(a, b, sqrt);
    assert d >= 0.0 && Sq(d) == DistSq(a, b);
    SqLess(d, radius);
  }

  /** The magnitude of a non-zero vector is positive. */
  lemma MagPositive(v: Vector, sqrt: real -> real)
    requires IsSqrt(sqrt)
    ensures Mag(v, sqrt) >= 0.0
    ensures Mag(v, sqrt) > 0.0 <==> v != Zero
  {
    var r := v.MagSq();
    MagSqSign(v);
    SqrtPositive(sqrt, r);
    assert Mag(v, sqrt) == sqrt(r);
  }

  /** The unit of a non-zero vector has length one and scales back to the
      vector; only the zero vector has the zero vector as its unit. */
  lemma UnitProperties(v: Vector, sqrt: real -> real)
    requires IsSqrt(sqrt)
    ensures v != Zero ==> Unit(v, sqrt).MagSq() == 1.0
    ensures Unit(v, sqrt) == Zero <==> v == Zero
    ensures Unit(v, sqrt).Scale(Mag(v, sqrt)) == v
  {
    var m := Mag(v, sqrt);
    MagPositive(v, sqrt);
    MagSqSign(v);
    if v != Zero {
      var k := 1.0 / m;
      var u := Unit(v, sqrt);
      assert u == v.Scale(k);
      ScaleMagSq(v, k);
      assert Sq(m) == v.MagSq();
      SqMul(k, m);
      assert k * m == 1.0;
      assert Sq(k) * Sq(m) == 1.0;
      assert u.MagSq() == 1.0;
      assert u.x * m == v.x && u.y * m == v.y;
    }
  }

  /** A unit vector scaled by `s` has squared length at most `s²`. */
  lemma ScaledUnitMagSq(v: Vector, s: real, sqrt: real -> real)
    requires IsSqrt(sqrt)
    ensures Unit(v, sqrt).Scale(s).MagSq() <= Sq(s)
  {
    UnitProperties(v, sqrt);
    ScaleMagSq(Unit(v, sqrt), s);
    SqSign(s);
    if v == Zero {
      MagSqSign(Zero);
    }
  }
}
