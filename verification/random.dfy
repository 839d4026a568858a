/** `Math.random()` draws. The model never produces random numbers: every draw is
    an input known to lie in [0, 1). */
module Random {
  import opened Geometry

  predicate Unit(u: real) {
    0.0 <= u < 1.0
  }

  lemma UnitScale(u: real, n: real)
    requires Unit(u) && n > 0.0
    ensures 0.0 <= Mul(u, n) < n
  {
    MulNonNegative(u, n);
    MulLtRight(u, 1.0, n);
  }

  lemma UnitBelow(u: real, n: real)
    ensures Unit(u) && n > 0.0 ==> Mul(u, n) < n
  {
    if Unit(u) && n > 0.0 {
      UnitScale(u, n);
    }
  }

  lemma UnitScaleLe(u: real, n: real)
    ensures Unit(u) && n >= 0.0 ==> 0.0 <= Mul(u, n) <= n
  {
    if Unit(u) && n >= 0.0 {
      MulNonNegative(u, n);
      MulLe(n, u, 1.0);
      assert Mul(n, u) == Mul(u, n);
    }
  }

  /** `Math.floor(Math.random() * n)`: an index below n. */
  function RandomIndex(n: nat, u: real): (i: nat)
    requires n > 0 && Unit(u)
    ensures i < n
    ensures i as real <= Mul(u, n as real) < i as real + 1.0
  {
    UnitScale(u, n as real);
    Mul(u, n as real).Floor
  }

  /** Every index can be drawn: the draw i/n gives i. */
  lemma RandomIndexOnto(n: nat, i: nat)
    requires i < n
    ensures Unit(i as real / n as real) && RandomIndex(n, i as real / n as real) == i
  {
    var u := i as real / n as real;
    assert Mul(u, n as real) == i as real;
  }
}
