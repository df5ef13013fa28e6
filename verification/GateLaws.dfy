/** Identities between the engine's gate matrices, from the angle-addition laws of the host's cos and sin. */
module GateLaws {
  import opened ComplexNumbers
  import opened Options
  import opened Circuits
  import opened Semantics
  import opened OperatorLaws

  function Plus(a: real, b: real): real {
    a + b
  }

  function CosOfSum(ca: real, sa: real, cb: real, sb: real): real {
    ca * cb - sa * sb
  }

  function SinOfSum(ca: real, sa: real, cb: real, sb: real): real {
    sa * cb + ca * sb
  }

  /** The textbook facts used about cos, sin, pi and 1/sqrt(2). */
  ghost predicate TrigLaws(trig: Trig) {
    && trig.pi > 0.0
    && 2.0 * (trig.half * trig.half) == 1.0
    && trig.cos(0.0) == 1.0 && trig.sin(0.0) == 0.0
    && trig.cos(trig.pi) == -1.0 && trig.sin(trig.pi) == 0.0
    && forall a: real, b: real {:trigger Plus(a, b)} ::
         && trig.cos(Plus(a, b)) == CosOfSum(trig.cos(a), trig.sin(a), trig.cos(b), trig.sin(b))
         && trig.sin(Plus(a, b)) == SinOfSum(trig.cos(a), trig.sin(a), trig.cos(b), trig.sin(b))
  }

  lemma AngleAddition(trig: Trig, a: real, b: real)
    requires TrigLaws(trig)
    ensures trig.cos(a + b) == CosOfSum(trig.cos(a), trig.sin(a), trig.cos(b), trig.sin(b))
    ensures trig.sin(a + b) == SinOfSum(trig.cos(a), trig.sin(a), trig.cos(b), trig.sin(b))
  {
    hide CosOfSum, SinOfSum;
    assert Plus(a, b) == a + b;
  }

  lemma SameAngle(trig: Trig, x: real, y: real)
    requires x == y
    ensures trig.cos(x) == trig.cos(y) && trig.sin(x) == trig.sin(y)
  {
  }

  // ---------------------------------------------------------------- half turns

  /** n times d. */
  function Turns(d: real, n: int): real {
    d * (n as real)
  }

  lemma NextTurn(d: real, n: int)
    ensures Turns(d, n + 1) == Turns(d, n) + d
  {
    assert (n + 1) as real == n as real + 1.0;
  }

  lemma NoTurn(d: real)
    ensures Turns(d, 0) == 0.0
  {
  }

  /** (-1)^n c. */
  function Alternate(n: int, c: real): real {
    if n % 2 == 0 then c else -c
  }

  lemma HalfTurn(trig: Trig, x: real)
    requires TrigLaws(trig)
    ensures trig.cos(x + trig.pi) == -trig.cos(x) && trig.sin(x + trig.pi) == -trig.sin(x)
  {
    hide CosOfSum, SinOfSum;
    AngleAddition(trig, x, trig.pi);
    Vanish(trig.cos(x), trig.sin(x));
  }

  lemma Vanish(c: real, s: real)
    ensures CosOfSum(c, s, -1.0, 0.0) == -c && SinOfSum(c, s, -1.0, 0.0) == -s
  {
  }

  lemma AlternateNext(n: int, c: real)
    ensures Alternate(n + 1, c) == -Alternate(n, c)
  {
  }

  /** n half turns, in either direction, multiply cos and sin by (-1)^n. */
  lemma {:induction false} HalfTurns(trig: Trig, x: real, n: int)
    requires TrigLaws(trig)
    ensures trig.cos(x + Turns(trig.pi, n)) == Alternate(n, trig.cos(x))
    ensures trig.sin(x + Turns(trig.pi, n)) == Alternate(n, trig.sin(x))
    decreases if n < 0 then -n else n
  {
    hide TrigLaws, Turns;
    if n == 0 {
      NoTurn(trig.pi);
    } else {
      hide Alternate;
      var m := if n > 0 then n - 1 else n;
      HalfTurns(trig, x, if n > 0 then n - 1 else n + 1);
      NextTurn(trig.pi, m);
      HalfTurn(trig, x + Turns(trig.pi, m));
      SameAngle(trig, x + Turns(trig.pi, m + 1), x + Turns(trig.pi, m) + trig.pi);
      AlternateNext(m, trig.cos(x));
      AlternateNext(m, trig.sin(x));
    }
  }

  // ---------------------------------------------------------------- normalisation

  /** Rounding toward zero, as the remainder operator does. */
  function Truncate(x: real): int {
    if x >= 0.0 then x.Floor else -((-x).Floor)
  }

  /** Wraps an angle into (-pi, pi]: a truncated remainder and at most one correction. */
  function NormalizeAngle(pi: real, angle: real): real
    requires pi > 0.0
  {
    var twoPi := 2.0 * pi;
    var remainder := angle - Turns(twoPi, Truncate(angle / twoPi));
    var wrapped := if remainder > pi then remainder - twoPi else remainder;
    if wrapped <= -pi then wrapped + twoPi else wrapped
  }

  function TurnsRemoved(pi: real, angle: real): int
    requires pi > 0.0
  {
    var twoPi := 2.0 * pi;
    var quotient := Truncate(angle / twoPi);
    var remainder := angle - Turns(twoPi, quotient);
    if remainder > pi then quotient + 1 else if remainder <= -pi then quotient - 1 else quotient
  }

  lemma RemainderRange(d: real, angle: real)
    requires d > 0.0
    ensures -d < angle - Turns(d, Truncate(angle / d)) < d
  {
    TruncateRange(angle / d);
    hide Truncate, Turns, Times;
    QuotientTimes(angle, d);
    Quotient(d, angle, angle / d, Truncate(angle / d));
  }

  lemma TruncateRange(x: real)
    ensures -1.0 < x - (Truncate(x) as real) < 1.0
  {
  }

  function Times(d: real, x: real): real {
    d * x
  }

  lemma QuotientTimes(angle: real, d: real)
    requires d > 0.0
    ensures Times(d, angle / d) == angle
  {
  }

  lemma TimesInteger(d: real, t: int)
    ensures Turns(d, t) == Times(d, t as real)
  {
  }

  lemma TimesDifference(d: real, x: real, y: real)
    ensures Times(d, x - y) == Times(d, x) - Times(d, y)
  {
  }

  lemma TimesPositive(d: real, y: real)
    requires d > 0.0 && y > 0.0
    ensures Times(d, y) > 0.0
  {
  }

  lemma TimesOne(d: real)
    ensures Times(d, 1.0) == d
  {
  }

  lemma Quotient(d: real, angle: real, x: real, t: int)
    requires d > 0.0 && Times(d, x) == angle && -1.0 < x - (t as real) < 1.0
    ensures -d < angle - Turns(d, t) < d
  {
    hide Times, Turns;
    var y := t as real;
    TimesInteger(d, t);
    TimesDifference(d, x, y);
    TimesDifference(d, 1.0, x - y);
    TimesDifference(d, x - y, -1.0);
    TimesDifference(d, 0.0, 1.0);
    TimesDifference(d, 1.0, 1.0);
    TimesOne(d);
    TimesPositive(d, 1.0 - (x - y));
    TimesPositive(d, x - y - -1.0);
    assert Times(d, 0.0 - 1.0) == -d;
  }

  /** The result is in range, and differs from the angle by whole turns. */
  lemma NormalizedAngle(pi: real, angle: real)
    requires pi > 0.0
    ensures -pi < NormalizeAngle(pi, angle) <= pi
    ensures NormalizeAngle(pi, angle) == angle - Turns(2.0 * pi, TurnsRemoved(pi, angle))
  {
    hide Truncate, Turns;
    var d := 2.0 * pi;
    RemainderRange(d, angle);
    NextTurn(d, Truncate(angle / d));
    NextTurn(d, Truncate(angle / d) - 1);
  }

  // ---------------------------------------------------------------- rotations

  predicate IsRotation(name: GateName) {
    name in {Rz, Rx, Ry, P, U1}
  }

  function RotationOf(trig: Trig, name: GateName, angle: real): Matrix2
    requires IsRotation(name)
  {
    SingleQubitMatrix(trig, name, [angle]).value
  }

  function RotationForm(name: GateName, c: real, s: real): Matrix2 {
    match name
    case Rx => Matrix2(Complex(c, 0.0), Complex(0.0, -s), Complex(0.0, -s), Complex(c, 0.0))
    case Ry => Matrix2(Complex(c, 0.0), Complex(-s, 0.0), Complex(s, 0.0), Complex(c, 0.0))
    case _ => Matrix2(Complex(c, -s), ZERO, ZERO, Complex(c, s))
  }

  lemma RotationEntries(trig: Trig, name: GateName, angle: real, c: real, s: real)
    requires name in {Rz, Rx, Ry} && c == trig.cos(angle / 2.0) && s == trig.sin(angle / 2.0)
    ensures RotationMatrix(trig, name, angle) == RotationForm(name, c, s)
  {
  }

  lemma RotationFusion(trig: Trig, name: GateName, a: real, b: real)
    requires TrigLaws(trig) && name in {Rz, Rx, Ry}
    ensures Product(RotationMatrix(trig, name, b), RotationMatrix(trig, name, a)) == RotationMatrix(trig, name, a + b)
  {
    hide CosOfSum, SinOfSum, Product, RotationMatrix, RotationForm;
    var ca, sa, cb, sb := trig.cos(a / 2.0), trig.sin(a / 2.0), trig.cos(b / 2.0), trig.sin(b / 2.0);
    AngleAddition(trig, a / 2.0, b / 2.0);
    SameAngle(trig, (a + b) / 2.0, a / 2.0 + b / 2.0);
    hide TrigLaws;
    RotationEntries(trig, name, a, ca, sa);
    RotationEntries(trig, name, b, cb, sb);
    RotationEntries(trig, name, a + b, CosOfSum(ca, sa, cb, sb), SinOfSum(ca, sa, cb, sb));
    FuseForms(name, ca, sa, cb, sb);
  }

  lemma FuseForms(name: GateName, ca: real, sa: real, cb: real, sb: real)
    requires name in {Rz, Rx, Ry}
    ensures Product(RotationForm(name, cb, sb), RotationForm(name, ca, sa))
         == RotationForm(name, CosOfSum(ca, sa, cb, sb), SinOfSum(ca, sa, cb, sb))
  {
    hide Product, CosOfSum, SinOfSum;
    match name {
      case Rx => FuseX(ca, sa, cb, sb);
      case Ry => FuseY(ca, sa, cb, sb);
      case Rz => FuseZ(ca, sa, cb, sb);
    }
  }

  lemma FuseX(ca: real, sa: real, cb: real, sb: real)
    ensures Product(Matrix2(Complex(cb, 0.0), Complex(0.0, -sb), Complex(0.0, -sb), Complex(cb, 0.0)),
                    Matrix2(Complex(ca, 0.0), Complex(0.0, -sa), Complex(0.0, -sa), Complex(ca, 0.0)))
         == var c, s := CosOfSum(ca, sa, cb, sb), SinOfSum(ca, sa, cb, sb);
            Matrix2(Complex(c, 0.0), Complex(0.0, -s), Complex(0.0, -s), Complex(c, 0.0))
  {
  }

  lemma FuseY(ca: real, sa: real, cb: real, sb: real)
    ensures Product(Matrix2(Complex(cb, 0.0), Complex(-sb, 0.0), Complex(sb, 0.0), Complex(cb, 0.0)),
                    Matrix2(Complex(ca, 0.0), Complex(-sa, 0.0), Complex(sa, 0.0), Complex(ca, 0.0)))
         == var c, s := CosOfSum(ca, sa, cb, sb), SinOfSum(ca, sa, cb, sb);
            Matrix2(Complex(c, 0.0), Complex(-s, 0.0), Complex(s, 0.0), Complex(c, 0.0))
  {
  }

  lemma DiagonalProduct(p: Complex, q: Complex, r: Complex, t: Complex)
    ensures Product(Matrix2(p, ZERO, ZERO, q), Matrix2(r, ZERO, ZERO, t)) == Matrix2(Mul(p, r), ZERO, ZERO, Mul(q, t))
  {
    hide Mul;
    MulZero(p); MulZero(q); MulZero(r); MulZero(t); MulZero(ZERO);
  }

  lemma FuseZ(ca: real, sa: real, cb: real, sb: real)
    ensures Product(Matrix2(Complex(cb, -sb), ZERO, ZERO, Complex(cb, sb)),
                    Matrix2(Complex(ca, -sa), ZERO, ZERO, Complex(ca, sa)))
         == var c, s := CosOfSum(ca, sa, cb, sb), SinOfSum(ca, sa, cb, sb);
            Matrix2(Complex(c, -s), ZERO, ZERO, Complex(c, s))
  {
    hide Product, Mul, Add, CosOfSum, SinOfSum;
    DiagonalProduct(Complex(cb, -sb), Complex(cb, sb), Complex(ca, -sa), Complex(ca, sa));
    UnitProduct(ca, sa, cb, sb);
    ConjugateUnitProduct(ca, sa, cb, sb);
  }

  lemma PhaseFusion(trig: Trig, a: real, b: real)
    requires TrigLaws(trig)
    ensures Product(PhaseMatrix(trig, b), PhaseMatrix(trig, a)) == PhaseMatrix(trig, a + b)
  {
    AngleAddition(trig, a, b);
    hide TrigLaws, Product, Mul, Add, CosOfSum, SinOfSum;
    FusePhase(trig.cos(a), trig.sin(a), trig.cos(b), trig.sin(b));
  }

  lemma FusePhase(ca: real, sa: real, cb: real, sb: real)
    ensures Product(Diagonal(Complex(cb, sb)), Diagonal(Complex(ca, sa)))
         == Diagonal(Complex(CosOfSum(ca, sa, cb, sb), SinOfSum(ca, sa, cb, sb)))
  {
    hide Product, Mul, Add, CosOfSum, SinOfSum;
    DiagonalProduct(ONE, Complex(cb, sb), ONE, Complex(ca, sa));
    MulOne(ONE);
    UnitProduct(ca, sa, cb, sb);
  }

  lemma UnitProduct(ca: real, sa: real, cb: real, sb: real)
    ensures Mul(Complex(cb, sb), Complex(ca, sa)) == Complex(CosOfSum(ca, sa, cb, sb), SinOfSum(ca, sa, cb, sb))
  {
  }

  lemma ConjugateUnitProduct(ca: real, sa: real, cb: real, sb: real)
    ensures Mul(Complex(cb, -sb), Complex(ca, -sa)) == Complex(CosOfSum(ca, sa, cb, sb), -SinOfSum(ca, sa, cb, sb))
  {
    assert (-sb) * (-sa) == sa * sb && cb * (-sa) == -(sa * cb) && (-sb) * ca == -(ca * sb);
  }

  /** Two rotations about one axis compose to the rotation by the summed angle. */
  lemma Fusion(trig: Trig, name: GateName, a: real, b: real)
    requires TrigLaws(trig) && IsRotation(name)
    ensures Product(RotationOf(trig, name, b), RotationOf(trig, name, a)) == RotationOf(trig, name, a + b)
  {
    hide TrigLaws, Product, RotationMatrix, PhaseMatrix;
    if name in {Rz, Rx, Ry} {
      RotationFusion(trig, name, a, b);
    } else {
      PhaseFusion(trig, a, b);
    }
  }

  lemma ZeroRotation(trig: Trig, name: GateName)
    requires TrigLaws(trig) && IsRotation(name)
    ensures RotationOf(trig, name, 0.0) == IDENTITY
  {
    assert 0.0 / 2.0 == 0.0;
  }

  /** Removing whole turns changes a rotation by a sign at most. */
  lemma WrapRotation(trig: Trig, name: GateName, angle: real) returns (s: real)
    requires TrigLaws(trig) && IsRotation(name)
    ensures IsSign(s)
    ensures RotationOf(trig, name, NormalizeAngle(trig.pi, angle)) == ScaleMatrix(s, RotationOf(trig, name, angle))
  {
    hide NormalizeAngle, TurnsRemoved, Turns, Alternate, ScaleMatrix, RotationMatrix, PhaseMatrix;
    var n := TurnsRemoved(trig.pi, angle);
    var wrapped := NormalizeAngle(trig.pi, angle);
    NormalizedAngle(trig.pi, angle);
    if name in {Rz, Rx, Ry} {
      HalfTurns(trig, angle / 2.0, -n);
      HalfAngles(trig.pi, n);
      SameAngle(trig, wrapped / 2.0, angle / 2.0 + Turns(trig.pi, -n));
      hide TrigLaws;
      s := if n % 2 == 0 then 1.0 else -1.0;
      AlternateSign(n, s, trig.cos(angle / 2.0));
      AlternateSign(n, s, trig.sin(angle / 2.0));
      ScaleRotation(trig, name, angle, wrapped, s);
    } else {
      s := 1.0;
      HalfTurns(trig, angle, -2 * n);
      WholeAngles(trig.pi, n);
      SameAngle(trig, wrapped, angle + Turns(trig.pi, -2 * n));
      hide TrigLaws;
      EvenTurns(n, trig.cos(angle));
      EvenTurns(n, trig.sin(angle));
      SamePhase(trig, angle, wrapped);
    }
  }

  lemma HalfAngles(pi: real, n: int)
    ensures -Turns(2.0 * pi, n) / 2.0 == Turns(pi, -n)
  {
    assert (2.0 * pi) * (n as real) == 2.0 * (pi * (n as real));
    assert pi * ((-n) as real) == -(pi * (n as real));
  }

  lemma WholeAngles(pi: real, n: int)
    ensures -Turns(2.0 * pi, n) == Turns(pi, -2 * n)
  {
    assert (-2 * n) as real == -2.0 * (n as real);
    assert pi * (-2.0 * (n as real)) == -2.0 * (pi * (n as real));
    assert (2.0 * pi) * (n as real) == 2.0 * (pi * (n as real));
  }

  lemma AlternateSign(n: int, s: real, c: real)
    requires s == if n % 2 == 0 then 1.0 else -1.0
    ensures Alternate(-n, c) == s * c
  {
    assert (-n) % 2 == n % 2;
  }

  lemma EvenTurns(n: int, c: real)
    ensures Alternate(-2 * n, c) == c
  {
  }

  lemma SamePhase(trig: Trig, angle: real, wrapped: real)
    requires trig.cos(wrapped) == trig.cos(angle) && trig.sin(wrapped) == trig.sin(angle)
    ensures PhaseMatrix(trig, wrapped) == ScaleMatrix(1.0, PhaseMatrix(trig, angle))
  {
  }

  lemma ScaleRotation(trig: Trig, name: GateName, angle: real, wrapped: real, s: real)
    requires name in {Rz, Rx, Ry} && IsSign(s)
    requires trig.cos(wrapped / 2.0) == s * trig.cos(angle / 2.0)
      && trig.sin(wrapped / 2.0) == s * trig.sin(angle / 2.0)
    ensures RotationMatrix(trig, name, wrapped) == ScaleMatrix(s, RotationMatrix(trig, name, angle))
  {
  }

  // ---------------------------------------------------------------- fixed gates

  lemma FixedMatrices(trig: Trig, angles: seq<real>)
    ensures SingleQubitMatrix(trig, X, angles) == Some(FLIP)
    ensures SingleQubitMatrix(trig, Y, angles) == Some(Matrix2(ZERO, Complex(0.0, -1.0), Complex(0.0, 1.0), ZERO))
    ensures SingleQubitMatrix(trig, Z, angles) == Some(Diagonal(Complex(-1.0, 0.0)))
    ensures SingleQubitMatrix(trig, H, angles) == Some(HMatrix(trig.half))
  {
  }

  /** The Pauli gates and the Hadamard gate square to the identity; parameters are ignored. */
  lemma SelfInverse(trig: Trig, name: GateName, angles: seq<real>)
    requires TrigLaws(trig) && name in {X, Y, Z, H}
    ensures SingleQubitMatrix(trig, name, angles).Some?
    ensures var m := SingleQubitMatrix(trig, name, angles).value; Product(m, m) == IDENTITY
  {
    RootHalf(trig);
    hide TrigLaws, SingleQubitMatrix, Product, HMatrix, Diagonal, IsRootHalf;
    FixedMatrices(trig, angles);
    match name {
      case H => HadamardSquare(trig.half);
      case X => PauliSquares();
      case Y => PauliSquares();
      case Z => PauliSquares();
    }
  }

  lemma RootHalf(trig: Trig)
    requires TrigLaws(trig)
    ensures IsRootHalf(trig.half)
  {
  }

  predicate IsRootHalf(h: real) {
    2.0 * (h * h) == 1.0
  }

  lemma PauliSquares()
    ensures Product(FLIP, FLIP) == IDENTITY
    ensures Product(Diagonal(Complex(-1.0, 0.0)), Diagonal(Complex(-1.0, 0.0))) == IDENTITY
    ensures var y := Matrix2(ZERO, Complex(0.0, -1.0), Complex(0.0, 1.0), ZERO); Product(y, y) == IDENTITY
  {
    hide Product;
    AntidiagonalProduct(ONE, ONE, ONE, ONE);
    AntidiagonalProduct(Complex(0.0, -1.0), Complex(0.0, 1.0), Complex(0.0, -1.0), Complex(0.0, 1.0));
    DiagonalProduct(ONE, Complex(-1.0, 0.0), ONE, Complex(-1.0, 0.0));
  }

  lemma AntidiagonalProduct(p: Complex, q: Complex, r: Complex, t: Complex)
    ensures Product(Matrix2(ZERO, p, q, ZERO), Matrix2(ZERO, r, t, ZERO)) == Matrix2(Mul(p, t), ZERO, ZERO, Mul(q, r))
  {
    hide Mul;
    MulZero(p); MulZero(q); MulZero(r); MulZero(t); MulZero(ZERO);
  }

  lemma HadamardSquare(h: real)
    requires IsRootHalf(h)
    ensures Product(HMatrix(h), HMatrix(h)) == IDENTITY
  {
    assert h * h + h * h == 1.0;
  }

  /** H A H = B for the pairs of the colour-change table. */
  function Conjugate(name: GateName): Option<GateName> {
    match name
    case Z => Some(X)
    case X => Some(Z)
    case Rz => Some(Rx)
    case Rx => Some(Rz)
    case S => Some(Sx)
    case _ => None
  }

  function HMatrix(h: real): Matrix2 {
    Matrix2(Complex(h, 0.0), Complex(h, 0.0), Complex(h, 0.0), Complex(-h, 0.0))
  }

  /** H diag(p, q) H = ((p+q) I + (p-q) X) / 2. */
  lemma HDiagonalH(h: real, p: Complex, q: Complex)
    requires IsRootHalf(h)
    ensures Product(HMatrix(h), Product(Matrix2(p, ZERO, ZERO, q), HMatrix(h)))
         == var s, d := Scale(0.5, Add(p, q)), Scale(0.5, Add(p, Scale(-1.0, q))); Matrix2(s, d, d, s)
  {
    HalfSquare(h, p.re); HalfSquare(h, p.im); HalfSquare(h, q.re); HalfSquare(h, q.im);
  }

  lemma HalfSquare(h: real, x: real)
    requires IsRootHalf(h)
    ensures h * (x * h) == 0.5 * x && h * (h * x) == 0.5 * x && (h * x) * h == 0.5 * x
  {
    assert h * (x * h) == (h * h) * x;
    assert h * (h * x) == (h * h) * x;
    assert (h * x) * h == (h * h) * x;
  }

  /** H (a I + b X) H = diag(a+b, a-b). */
  lemma HXFormH(h: real, a: Complex, b: Complex)
    requires IsRootHalf(h)
    ensures Product(HMatrix(h), Product(Matrix2(a, b, b, a), HMatrix(h)))
         == Matrix2(Add(a, b), ZERO, ZERO, Add(a, Scale(-1.0, b)))
  {
    HalfSquare(h, a.re); HalfSquare(h, a.im); HalfSquare(h, b.re); HalfSquare(h, b.im);
    HalfSquare(h, a.re + b.re); HalfSquare(h, a.im + b.im); HalfSquare(h, a.re - b.re); HalfSquare(h, a.im - b.im);
  }

  lemma ConjugateZ(h: real)
    requires IsRootHalf(h)
    ensures Product(HMatrix(h), Product(Diagonal(Complex(-1.0, 0.0)), HMatrix(h))) == FLIP
  {
    hide Product, IsRootHalf, HMatrix, Add, Scale;
    HDiagonalH(h, ONE, Complex(-1.0, 0.0));
    SignHalves(ONE, Complex(-1.0, 0.0));
  }

  lemma SignHalves(p: Complex, q: Complex)
    requires p.re == 1.0 && p.im == 0.0 && q.re == -1.0 && q.im == 0.0
    ensures Scale(0.5, Add(p, q)) == ZERO
    ensures Scale(0.5, Add(p, Scale(-1.0, q))) == ONE
  {
    hide Scale, Add;
    NegatedParts(q);
    SumParts(p, q);
    SumParts(p, Scale(-1.0, q));
    HalfParts(Add(p, q));
    HalfParts(Add(p, Scale(-1.0, q)));
  }

  lemma NegatedParts(z: Complex)
    ensures Scale(-1.0, z) == Complex(-z.re, -z.im)
  {
  }

  lemma SumParts(z: Complex, w: Complex)
    ensures Add(z, w) == Complex(z.re + w.re, z.im + w.im)
  {
  }

  lemma HalfParts(z: Complex)
    ensures Scale(0.5, z) == Complex(z.re / 2.0, z.im / 2.0)
  {
  }

  lemma ConjugateX(h: real)
    requires IsRootHalf(h)
    ensures Product(HMatrix(h), Product(FLIP, HMatrix(h))) == Diagonal(Complex(-1.0, 0.0))
  {
    hide Product, IsRootHalf;
    HXFormH(h, ZERO, ONE);
  }

  lemma ConjugateS(h: real)
    requires IsRootHalf(h)
    ensures Product(HMatrix(h), Product(Diagonal(Complex(0.0, 1.0)), HMatrix(h)))
         == Matrix2(Complex(0.5, 0.5), Complex(0.5, -0.5), Complex(0.5, -0.5), Complex(0.5, 0.5))
  {
    hide Product, IsRootHalf;
    HDiagonalH(h, ONE, Complex(0.0, 1.0));
  }

  lemma ConjugateRotations(h: real, c: real, s: real)
    requires IsRootHalf(h)
    ensures var rz := Matrix2(Complex(c, -s), ZERO, ZERO, Complex(c, s));
      var rx := Matrix2(Complex(c, 0.0), Complex(0.0, -s), Complex(0.0, -s), Complex(c, 0.0));
      && Product(HMatrix(h), Product(rz, HMatrix(h))) == rx
      && Product(HMatrix(h), Product(rx, HMatrix(h))) == rz
  {
    hide Product, IsRootHalf;
    HDiagonalH(h, Complex(c, -s), Complex(c, s));
    HXFormH(h, Complex(c, 0.0), Complex(0.0, -s));
  }

  lemma HadamardConjugation(trig: Trig, name: GateName, angles: seq<real>)
    requires TrigLaws(trig) && Conjugate(name).Some? && SingleQubitMatrix(trig, name, angles).Some?
    ensures SingleQubitMatrix(trig, Conjugate(name).value, angles).Some?
    ensures Product(HMatrix(trig.half), Product(SingleQubitMatrix(trig, name, angles).value, HMatrix(trig.half)))
         == SingleQubitMatrix(trig, Conjugate(name).value, angles).value
  {
    RootHalf(trig);
    hide Product, TrigLaws, IsRootHalf;
    var h := trig.half;
    match name {
      case Z => ConjugateZ(h);
      case S => ConjugateS(h);
      case X => ConjugateX(h);
      case Rz => ConjugateRotations(h, trig.cos(angles[0] / 2.0), trig.sin(angles[0] / 2.0));
      case Rx => ConjugateRotations(h, trig.cos(angles[0] / 2.0), trig.sin(angles[0] / 2.0));
    }
  }

  /** The lower diagonal entry of the fixed Z-axis gates. */
  function PhaseOf(h: real, name: GateName): Complex {
    match name
    case Z => Complex(-1.0, 0.0)
    case S => Complex(0.0, 1.0)
    case Sdg => Complex(0.0, -1.0)
    case T => Complex(h, h)
    case _ => Complex(h, -h)
  }

  lemma FixedPhaseMatrix(trig: Trig, name: GateName)
    requires name in {Z, S, Sdg, T, Tdg}
    ensures SingleQubitMatrix(trig, name, []) == Some(Diagonal(PhaseOf(trig.half, name)))
  {
  }
}
