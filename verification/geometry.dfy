/** Points and distances of the ground plane and of three.js positions. Square
    roots are never taken: a distance is compared through its square. */
module Geometry {

  datatype Vec3 = Vec3(x: real, y: real, z: real)

  function Abs(a: real): (r: real)
    ensures r >= 0.0
    ensures r == a || r == -a
  {
    if a < 0.0 then -a else a
  }

  function Min(a: real, b: real): (r: real)
    ensures r <= a && r <= b
    ensures r == a || r == b
  {
    if a <= b then a else b
  }

  function Max(a: real, b: real): (r: real)
    ensures r >= a && r >= b
    ensures r == a || r == b
  {
    if a >= b then a else b
  }

  /** `Math.max(lo, Math.min(hi, v))`: the point of [lo, hi] nearest to v. */
  function Clamp(lo: real, hi: real, v: real): (r: real)
    ensures lo <= hi ==> lo <= r <= hi
    ensures lo <= v <= hi ==> r == v
    ensures lo <= hi && v < lo ==> r == lo
    ensures lo <= hi && v > hi ==> r == hi
  {
    Max(lo, Min(hi, v))
  }

  /** Product of two non-constant reals. Products are kept behind this name so
      that the solver reasons about them as terms. */
  function Mul(a: real, b: real): real {
    a * b
  }

  lemma MulNonNegative(a: real, b: real)
    ensures 0.0 <= a && 0.0 <= b ==> 0.0 <= Mul(a, b)
  {
  }

  function Sq(a: real): (r: real)
    ensures r >= 0.0
  {
    Mul(a, a)
  }

  /** Squared Euclidean distance in three dimensions (`distanceTo` squared). */
  function Dist2(a: Vec3, b: Vec3): (d: real)
    ensures d >= 0.0
  {
    Sq(a.x - b.x) + Sq(a.y - b.y) + Sq(a.z - b.z)
  }

  /** Squared Euclidean distance on the ground plane. */
  function PlaneDist2(x1: real, z1: real, x2: real, z2: real): (d: real)
    ensures d >= 0.0
  {
    Sq(x1 - x2) + Sq(z1 - z2)
  }

  /** `a.distanceTo(b) < r`, exact for every real r: a distance is never negative,
      so it is below r only when r is positive and its square is below r*r. */
  predicate Within(a: Vec3, b: Vec3, r: real) {
    r > 0.0 && Dist2(a, b) < Sq(r)
  }

  lemma MulLe(c: real, a: real, b: real)
    requires 0.0 <= c && a <= b
    ensures Mul(c, a) <= Mul(c, b)
  {
  }

  lemma MulLtRight(a: real, b: real, c: real)
    requires 0.0 < c && a < b
    ensures Mul(a, c) < Mul(b, c)
  {
  }

  lemma SqLt(a: real, b: real)
    requires 0.0 <= a < b
    ensures Sq(a) < Sq(b)
  {
    MulLe(a, a, b);
    MulLtRight(a, b, b);
  }

  /** Comparing squares of non-negative numbers orders them as the numbers do,
      which is why the model compares squared distances where the source compares
      `Math.sqrt` of them. */
  lemma SqStrictMonotone(a: real, b: real)
    requires 0.0 <= a && 0.0 <= b
    ensures a < b <==> Sq(a) < Sq(b)
    ensures a <= b <==> Sq(a) <= Sq(b)
  {
    if a < b {
      SqLt(a, b);
    } else if b < a {
      SqLt(b, a);
    }
  }

  /** A square is zero exactly at zero. */
  lemma SqZero(a: real)
    ensures Sq(a) == 0.0 <==> a == 0.0
  {
    if a > 0.0 {
      MulLtRight(0.0, a, a);
    } else if a < 0.0 {
      MulLtRight(0.0, -a, -a);
      assert Mul(-a, -a) == Mul(a, a);
    }
  }

  /** A squared distance is zero exactly between equal points. */
  lemma PlaneDist2Zero(x1: real, z1: real, x2: real, z2: real)
    ensures PlaneDist2(x1, z1, x2, z2) == 0.0 <==> x1 == x2 && z1 == z2
  {
    SqZero(x1 - x2);
    SqZero(z1 - z2);
  }

  /** A point is within every positive radius of itself. */
  lemma WithinSelf(a: Vec3, r: real)
    requires r > 0.0
    ensures Within(a, a, r)
  {
    assert Dist2(a, a) == 0.0;
    MulLtRight(0.0, r, r);
  }

  /** Within is symmetric and grows with the radius. */
  lemma WithinMonotone(a: Vec3, b: Vec3, r1: real, r2: real)
    requires r1 <= r2
    ensures Within(a, b, r1) ==> Within(a, b, r2)
    ensures Within(a, b, r1) <==> Within(b, a, r1)
  {
    if Within(a, b, r1) {
      SqStrictMonotone(r1, r2);
    }
    assert Sq(a.x - b.x) == Sq(b.x - a.x);
    assert Sq(a.y - b.y) == Sq(b.y - a.y);
    assert Sq(a.z - b.z) == Sq(b.z - a.z);
  }
}
