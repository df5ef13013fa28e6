/** Exact complex amplitudes: the pair the engine keeps as two floating-point numbers, over the reals. */
module ComplexNumbers {

  datatype Complex = Complex(re: real, im: real)

  const ZERO := Complex(0.0, 0.0)
  const ONE := Complex(1.0, 0.0)
  const I := Complex(0.0, 1.0)

  function Add(z: Complex, w: Complex): Complex {
    Complex(z.re + w.re, z.im + w.im)
  }

  function Mul(z: Complex, w: Complex): Complex {
    Complex(z.re * w.re - z.im * w.im, z.re * w.im + z.im * w.re)
  }

  function Scale(r: real, z: Complex): Complex {
    Complex(r * z.re, r * z.im)
  }

  lemma AddZero(z: Complex)
    ensures Add(z, ZERO) == z && Add(ZERO, z) == z
  {
  }

  lemma MulZero(z: Complex)
    ensures Mul(ZERO, z) == ZERO && Mul(z, ZERO) == ZERO
  {
  }

  function Square(x: real): real {
    x * x
  }

  /** |z|^2, the probability weight of an amplitude. */
  function NormSq(z: Complex): real {
    Square(z.re) + Square(z.im)
  }

  /** i^k; only k modulo 4 matters. */
  function IPow(k: int): Complex {
    match k % 4
    case 0 => ONE
    case 1 => I
    case 2 => Complex(-1.0, 0.0)
    case _ => Complex(0.0, -1.0)
  }

  lemma MulAdd(c: Complex, z: Complex, w: Complex)
    ensures Mul(c, Add(z, w)) == Add(Mul(c, z), Mul(c, w))
  {
  }

  lemma MulAssoc(a: Complex, b: Complex, c: Complex)
    ensures Mul(Mul(a, b), c) == Mul(a, Mul(b, c))
  {
    MulAssocRe(a, b, c);
    MulAssocIm(a, b, c);
  }

  lemma MulAssocRe(a: Complex, b: Complex, c: Complex)
    ensures Mul(Mul(a, b), c).re == Mul(a, Mul(b, c)).re
  {
    assert (a.re * b.re - a.im * b.im) * c.re == a.re * (b.re * c.re) - a.im * (b.im * c.re);
    assert (a.re * b.im + a.im * b.re) * c.im == a.re * (b.im * c.im) + a.im * (b.re * c.im);
    assert a.re * (b.re * c.re - b.im * c.im) == a.re * (b.re * c.re) - a.re * (b.im * c.im);
    assert a.im * (b.re * c.im + b.im * c.re) == a.im * (b.re * c.im) + a.im * (b.im * c.re);
  }

  lemma MulAssocIm(a: Complex, b: Complex, c: Complex)
    ensures Mul(Mul(a, b), c).im == Mul(a, Mul(b, c)).im
  {
    assert (a.re * b.re - a.im * b.im) * c.im == a.re * (b.re * c.im) - a.im * (b.im * c.im);
    assert (a.re * b.im + a.im * b.re) * c.re == a.re * (b.im * c.re) + a.im * (b.re * c.re);
    assert a.re * (b.re * c.im + b.im * c.re) == a.re * (b.re * c.im) + a.re * (b.im * c.re);
    assert a.im * (b.re * c.re - b.im * c.im) == a.im * (b.re * c.re) - a.im * (b.im * c.im);
  }

  lemma MulComm(a: Complex, b: Complex)
    ensures Mul(a, b) == Mul(b, a)
  {
  }

  lemma IPowAdd(j: int, k: int, z: Complex)
    ensures Mul(IPow(j), Mul(IPow(k), z)) == Mul(IPow(j + k), z)
  {
    assert (j + k) % 4 == (j % 4 + k % 4) % 4;
  }

  lemma IPowNext(k: int, z: Complex)
    ensures Mul(I, Mul(IPow(k), z)) == Mul(IPow(k + 1), z)
  {
    IPowAdd(1, k, z);
  }

  lemma MulOne(z: Complex)
    ensures Mul(z, ONE) == z && Mul(ONE, z) == z
  {
  }

  lemma IPowStep(k: int)
    ensures IPow(k + 1) == Mul(I, IPow(k))
  {
    IPowNext(k, ONE);
    MulOne(IPow(k));
    MulOne(IPow(k + 1));
  }

  lemma MulICancel(z: Complex, w: Complex)
    requires Mul(I, z) == Mul(I, w)
    ensures z == w
  {
  }

  lemma IPowCongruent(j: int, k: int)
    requires (j - k) % 4 == 0
    ensures IPow(j) == IPow(k)
  {
    assert j % 4 == k % 4;
  }

  /** A product of nonzero numbers is nonzero: |zw|^2 = |z|^2 |w|^2. */
  lemma MulNonZero(z: Complex, w: Complex)
    requires z != ZERO && w != ZERO
    ensures Mul(z, w) != ZERO
  {
    NormSqPositive(z);
    NormSqPositive(w);
    PositiveNormSqMul(z, w);
    PositiveNormSq(Mul(z, w));
  }

  lemma PositiveNormSqMul(z: Complex, w: Complex)
    requires NormSq(z) > 0.0 && NormSq(w) > 0.0
    ensures NormSq(Mul(z, w)) > 0.0
  {
    var p, q := NormSq(z), NormSq(w);
    assert NormSq(Mul(z, w)) == p * q by { NormSqMul(z, w); }
    PositiveProduct(p, q);
  }

  lemma PositiveNormSq(z: Complex)
    requires NormSq(z) > 0.0
    ensures z != ZERO
  {
    assert NormSq(ZERO) == 0.0;
  }

  lemma PositiveProduct(x: real, y: real)
    requires x > 0.0 && y > 0.0
    ensures x * y > 0.0
  {
  }

  lemma NormSqPositive(z: Complex)
    requires z != ZERO
    ensures NormSq(z) > 0.0
  {
    assert z.re != 0.0 || z.im != 0.0;
    SquareSign(z.re);
    SquareSign(z.im);
  }

  lemma SquareSign(x: real)
    ensures 0.0 <= Square(x)
    ensures x != 0.0 ==> 0.0 < Square(x)
    decreases x < 0.0
  {
    if x > 0.0 {
      assert Square(x) / x == x;
    } else if x < 0.0 {
      SquareSign(-x);
      assert Square(x) == Square(-x);
    }
  }

  lemma NormSqMul(z: Complex, w: Complex)
    ensures NormSq(Mul(z, w)) == NormSq(z) * NormSq(w)
  {
    var a, b, c, d := z.re, z.im, w.re, w.im;
    SquareSumDifference(a * c, b * d);
    SquareSumDifference(a * d, b * c);
    ProductSwap(a, b, c, d);
    SquareProduct(a, c); SquareProduct(a, d); SquareProduct(b, c); SquareProduct(b, d);
  }

  lemma SquareSumDifference(p: real, q: real)
    ensures Square(p - q) == Square(p) - 2.0 * (p * q) + Square(q)
    ensures Square(p + q) == Square(p) + 2.0 * (p * q) + Square(q)
  {
  }

  lemma ProductSwap(a: real, b: real, c: real, d: real)
    ensures (a * c) * (b * d) == (a * d) * (b * c)
  {
    assert (a * c) * (b * d) == a * (c * (b * d));
    assert c * (b * d) == d * (b * c);
    assert (a * d) * (b * c) == a * (d * (b * c));
  }

  lemma SquareProduct(x: real, y: real)
    ensures Square(x * y) == Square(x) * Square(y)
  {
    assert (x * y) * (x * y) == x * (y * (x * y));
    assert y * (x * y) == x * (y * y);
    assert (x * x) * (y * y) == x * (x * (y * y));
  }
}
