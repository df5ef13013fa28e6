/** Integer powers of real numbers. */
module RealPowers {
  function Power(x: real, n: nat): real {
    if n == 0 then 1.0 else x * Power(x, n - 1)
  }

  ghost predicate IsSquareRoot(sqrt: real -> real) {
    forall x: real :: x >= 0.0 ==> sqrt(x) >= 0.0 && sqrt(x) * sqrt(x) == x
  }

  lemma ProductNonNegative(x: real, y: real)
    requires x >= 0.0 && y >= 0.0
    ensures x * y >= 0.0
  {
  }

  lemma ProductPositive(x: real, y: real)
    requires x > 0.0 && y > 0.0
    ensures x * y > 0.0
  {
  }

  lemma ProductMonotone(x: real, y: real, u: real, v: real)
    requires 0.0 <= x <= y && 0.0 <= u <= v
    ensures x * u <= y * v
  {
    ProductNonNegative(y - x, u);
    ProductNonNegative(y, v - u);
    assert y * v - x * u == (y - x) * u + y * (v - u);
  }

  lemma ProductStrict(x: real, y: real, u: real, v: real)
    requires 0.0 <= x < y && 0.0 < u <= v
    ensures x * u < y * v
  {
    ProductPositive(y - x, u);
    ProductNonNegative(y, v - u);
    assert y * v - x * u == (y - x) * u + y * (v - u);
  }

  lemma {:induction false} PowerNonNegative(x: real, n: nat)
    requires x >= 0.0
    ensures Power(x, n) >= 0.0
  {
    if n > 0 {
      PowerNonNegative(x, n - 1);
      ProductNonNegative(x, Power(x, n - 1));
    }
  }

  lemma {:induction false} PowerPositive(x: real, n: nat)
    requires x > 0.0
    ensures Power(x, n) > 0.0
  {
    if n > 0 {
      PowerPositive(x, n - 1);
      ProductPositive(x, Power(x, n - 1));
    }
  }

  lemma {:induction false} PowerMonotone(x: real, y: real, n: nat)
    requires 0.0 <= x <= y
    ensures Power(x, n) <= Power(y, n)
  {
    if n > 0 {
      PowerMonotone(x, y, n - 1);
      PowerNonNegative(x, n - 1);
      ProductMonotone(x, y, Power(x, n - 1), Power(y, n - 1));
    }
  }

  lemma {:induction false} PowerStrict(x: real, y: real, n: nat)
    requires 0.0 <= x < y && n > 0
    ensures Power(x, n) < Power(y, n)
  {
    if n == 1 {
      PowerOne(x);
      PowerOne(y);
    } else {
      PowerStrict(x, y, n - 1);
      PowerMonotone(x, y, n - 1);
      PowerPositive(y, n - 1);
      PowerNonNegative(x, n - 1);
      var u, v := Power(x, n - 1), Power(y, n - 1);
      ProductMonotone(x, x, u, v);
      ProductPositive(y - x, v);
      assert y * v - x * v == (y - x) * v;
    }
  }

  lemma PowerOne(x: real)
    ensures Power(x, 1) == x
  {
    assert Power(x, 0) == 1.0;
  }

  /** Powers of a number below 1 go down. */
  lemma {:induction false} PowerDecreases(x: real, m: nat, n: nat)
    requires 0.0 <= x <= 1.0 && m <= n
    ensures Power(x, n) <= Power(x, m)
    decreases n
  {
    if m < n {
      PowerDecreases(x, m, n - 1);
      PowerNonNegative(x, n - 1);
      ProductMonotone(x, 1.0, Power(x, n - 1), Power(x, n - 1));
    }
  }

  lemma {:induction false} PowerBelowOne(x: real, n: nat)
    requires 0.0 <= x <= 1.0
    ensures 0.0 <= Power(x, n) <= 1.0
  {
    PowerNonNegative(x, n);
    PowerDecreases(x, 0, n);
  }

  // ---------------------------------------------------------------- repeated squaring

  /** x to the power 2^k. */
  function Squared(x: real, k: nat): real
    decreases k
  {
    if k == 0 then x else Squared(x * x, k - 1)
  }

  lemma {:induction false} SquaredSplit(x: real, j: nat, k: nat)
    ensures Squared(x, j + k) == Squared(Squared(x, j), k)
    decreases j
  {
    if j > 0 { SquaredSplit(x * x, j - 1, k); }
  }

  /** 2^k as a real number. */
  function Doubled(k: nat): real {
    if k == 0 then 1.0 else 2.0 * Doubled(k - 1)
  }

  /** Bernoulli: (1 + e)^(2^k) >= 1 + 2^k e. */
  lemma {:induction false} Bernoulli(e: real, k: nat)
    requires e >= 0.0
    ensures Squared(1.0 + e, k) >= 1.0 + Doubled(k) * e
    decreases k
  {
    if k > 0 {
      var f := 2.0 * e + e * e;
      ProductNonNegative(e, e);
      assert (1.0 + e) * (1.0 + e) == 1.0 + f;
      Bernoulli(f, k - 1);
      DoubledPositive(k - 1);
      ProductMonotone(Doubled(k - 1), Doubled(k - 1), 2.0 * e, f);
      DoubleTimes(Doubled(k - 1), e);
    }
  }

  lemma DoubleTimes(d: real, e: real)
    ensures d * (2.0 * e) == (2.0 * d) * e
  {
  }

  lemma DoubledPositive(k: nat)
    ensures Doubled(k) > 0.0
  {
  }

  lemma {:induction false} SquaredMonotone(x: real, y: real, k: nat)
    requires 0.0 <= x <= y
    ensures 0.0 <= Squared(x, k) <= Squared(y, k)
    decreases k
  {
    if k > 0 {
      ProductMonotone(x, y, x, y);
      ProductNonNegative(x, x);
      SquaredMonotone(x * x, y * y, k - 1);
    }
  }

  lemma DoubledForty()
    ensures Doubled(40) > 1000000000000.0
  {
    assert Doubled(10) == 1024.0;
    assert Doubled(20) == 1048576.0;
    assert Doubled(30) == 1073741824.0;
  }

  lemma TwoSquared()
    ensures Squared(2.0, 10) > 1000000000.0
  {
    assert Squared(2.0, 10) == Squared(4.0, 9) == Squared(16.0, 8) == Squared(256.0, 7) == Squared(65536.0, 6);
    assert Squared(65536.0, 6) == Squared(4294967296.0, 5);
    SquaredGrows(4294967296.0, 5);
  }

  lemma {:induction false} SquaredGrows(x: real, k: nat)
    requires x >= 1.0
    ensures Squared(x, k) >= x
    decreases k
  {
    if k > 0 {
      ProductMonotone(1.0, x, x, x);
      SquaredGrows(x * x, k - 1);
    }
  }

  /** A number whose 2^50th power is 10^9 is within one part in 10^12 of 1. */
  lemma FiftyHalvings(e: real, k: nat)
    requires e >= 0.0 && k == 50 && Squared(1.0 + e, k) == 1000000000.0
    ensures e * 1000000000000.0 <= 1.0
  {
    hide Squared, Doubled;
    var y := Squared(1.0 + e, 40);
    SquaredSplit(1.0 + e, 40, 10);
    if y >= 2.0 {
      SquaredMonotone(2.0, y, 10);
      TwoSquared();
    }
    Bernoulli(e, 40);
    DoubledForty();
    ProductMonotone(1000000000000.0, Doubled(40), e, e);
  }
}
