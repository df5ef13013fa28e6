/**
 * Every gate the engine accepts is a unitary: it keeps the norm, and it can be undone
 * (src/engine/statevector.ts:63-225, 361-465).
 */
module GateUnitarity {
  import opened Options
  import opened Circuits
  import opened ComplexNumbers
  import opened Semantics
  import opened OperatorLaws
  import opened GateLaws
  import opened PeepholeRules
  import opened Refinement
  import opened PeepholeSoundness
  import opened Phases
  import Sums = Summation

  // ---------------------------------------------------------------- unit complex numbers

  /** cos^2 + sin^2 = 1, at every angle. */
  ghost predicate UnitCircle(trig: Trig) {
    forall a: real :: NormSq(Complex(trig.cos(a), trig.sin(a))) == 1.0
  }

  predicate IsUnit(z: Complex) {
    NormSq(z) == 1.0
  }

  lemma UnitAt(trig: Trig, a: real)
    requires UnitCircle(trig)
    ensures IsUnit(Complex(trig.cos(a), trig.sin(a)))
  {
  }

  lemma SquareScale(r: real, z: Complex)
    ensures NormSq(Scale(r, z)) == Square(r) * NormSq(z)
  {
    SquareProduct(r, z.re);
    SquareProduct(r, z.im);
  }

  lemma ConjNorm(z: Complex)
    ensures NormSq(Conj(z)) == NormSq(z) && Mul(Conj(z), z) == Complex(NormSq(z), 0.0) && Conj(Conj(z)) == z
  {
  }

  lemma UnitProducts(z: Complex, w: Complex)
    requires IsUnit(z) && IsUnit(w)
    ensures IsUnit(Mul(z, w)) && IsUnit(Conj(z))
  {
    NormSqMul(z, w);
    ConjNorm(z);
  }

  // ---------------------------------------------------------------- unitary shapes

  function Adjoint(m: Matrix2): Matrix2 {
    Matrix2(Conj(m.m00), Conj(m.m10), Conj(m.m01), Conj(m.m11))
  }

  /** A unitary whose adjoint is one too. */
  predicate IsReversible(m: Matrix2) {
    IsUnitary(m) && IsUnitary(Adjoint(m))
  }

  lemma DiagonalUnitary(z: Complex, w: Complex)
    requires IsUnit(z) && IsUnit(w)
    ensures IsUnitary(Matrix2(z, ZERO, ZERO, w))
  {
    hide Mul, Conj, Add, NormSq;
    MulZero(Conj(z));
    RealConj(0.0);
    MulZero(w);
    ZeroSums();
  }

  lemma RealConj(r: real)
    ensures Conj(Complex(r, 0.0)) == Complex(r, 0.0)
  {
  }

  lemma ZeroSums()
    ensures Add(ZERO, ZERO) == ZERO && NormSq(ZERO) == 0.0
  {
    hide NormSq;
    ZeroNorm(ZERO);
  }

  lemma ZeroNorm(z: Complex)
    requires z.re == 0.0 && z.im == 0.0
    ensures NormSq(z) == 0.0
  {
  }

  lemma DiagonalReversible(z: Complex, w: Complex)
    requires IsUnit(z) && IsUnit(w)
    ensures IsReversible(Matrix2(z, ZERO, ZERO, w))
  {
    hide IsUnitary, Conj, IsUnit;
    RealConj(0.0);
    UnitProducts(z, w);
    UnitProducts(w, z);
    DiagonalUnitary(z, w);
    DiagonalUnitary(Conj(z), Conj(w));
  }

  /** aI + bX with orthogonal coefficients. */
  lemma XFormUnitary(a: Complex, b: Complex)
    requires NormSq(a) + NormSq(b) == 1.0 && Mul(Conj(a), b).re == 0.0
    ensures IsUnitary(Matrix2(a, b, b, a))
  {
  }

  lemma XFormReversible(a: Complex, b: Complex)
    requires NormSq(a) + NormSq(b) == 1.0 && Mul(Conj(a), b).re == 0.0
    ensures IsReversible(Matrix2(a, b, b, a))
  {
    hide IsUnitary;
    ConjNorm(a);
    ConjNorm(b);
    XFormUnitary(a, b);
    XFormUnitary(Conj(a), Conj(b));
  }

  /** [[c, -s l], [s p, c p l]]: the general rotation, with unit phases p and l. */
  function RotationShape(c: real, s: real, p: Complex, l: Complex): Matrix2 {
    Matrix2(Complex(c, 0.0), Scale(-s, l), Scale(s, p), Scale(c, Mul(p, l)))
  }

  lemma Orthogonal(c: real, s: real, p: Complex, l: Complex)
    requires IsUnit(p)
    ensures Add(Mul(Conj(Complex(c, 0.0)), Scale(-s, l)), Mul(Conj(Scale(s, p)), Scale(c, Mul(p, l)))) == ZERO
  {
    hide Mul, NormSq;
    ScaledTerms(c, s, p, l);
    ConjNorm(p);
    MulAssoc(Conj(p), p, l);
    MulOne(l);
    ScaleCancels(c * s, l);
  }

  lemma ScaledTerms(c: real, s: real, p: Complex, l: Complex)
    ensures Mul(Conj(Complex(c, 0.0)), Scale(-s, l)) == Scale(-(c * s), l)
    ensures Mul(Conj(Scale(s, p)), Scale(c, Mul(p, l))) == Scale(c * s, Mul(Conj(p), Mul(p, l)))
  {
    ScaleReal(c, -s, l);
    ConjScale(s, p);
    hide Mul, Conj;
    ScaleBoth(s, Conj(p), c, Mul(p, l));
  }

  lemma ScaleReal(c: real, r: real, z: Complex)
    ensures Mul(Conj(Complex(c, 0.0)), Scale(r, z)) == Scale(c * r, z)
  {
    assert c * (r * z.re) == (c * r) * z.re && c * (r * z.im) == (c * r) * z.im;
  }

  lemma ConjScale(r: real, z: Complex)
    ensures Conj(Scale(r, z)) == Scale(r, Conj(z))
  {
    assert -(r * z.im) == r * -z.im;
  }

  lemma ScaleBoth(r: real, z: Complex, t: real, w: Complex)
    ensures Mul(Scale(r, z), Scale(t, w)) == Scale(t * r, Mul(z, w))
  {
    ScaledProduct(r, z.re, t, w.re);
    ScaledProduct(r, z.im, t, w.im);
    ScaledProduct(r, z.re, t, w.im);
    ScaledProduct(r, z.im, t, w.re);
  }

  lemma ScaledProduct(r: real, x: real, t: real, y: real)
    ensures (r * x) * (t * y) == (t * r) * (x * y)
  {
    assert (r * x) * (t * y) == (r * t) * (x * y) by { ProductSwap(r, t, x, y); }
  }

  lemma ScaleCancels(r: real, z: Complex)
    ensures Add(Scale(-r, z), Scale(r, z)) == ZERO
  {
    assert -r * z.re == -(r * z.re) && -r * z.im == -(r * z.im);
  }

  lemma RotationUnitary(c: real, s: real, p: Complex, l: Complex)
    requires Square(c) + Square(s) == 1.0 && IsUnit(p) && IsUnit(l)
    ensures IsUnitary(RotationShape(c, s, p, l))
  {
    Orthogonal(c, s, p, l);
    SquareScale(s, p);
    SquareScale(-s, l);
    UnitProducts(p, l);
    SquareScale(c, Mul(p, l));
    SquareParts(c, s);
    hide Mul, Add, Conj, Scale, NormSq, Square;
  }

  lemma SquareParts(c: real, s: real)
    ensures NormSq(Complex(c, 0.0)) == Square(c) && Square(-s) == Square(s)
  {
    assert -s * -s == s * s;
  }

  lemma RotationAdjoint(c: real, s: real, p: Complex, l: Complex)
    ensures Adjoint(RotationShape(c, s, p, l)) == RotationShape(c, -s, Conj(l), Conj(p))
  {
    ConjOfMul(p, l);
    hide Mul;
    MulComm(Conj(p), Conj(l));
    ConjScale(-s, l);
    ConjScale(s, p);
    ConjScale(c, Mul(p, l));
  }

  lemma RotationReversible(c: real, s: real, p: Complex, l: Complex)
    requires Square(c) + Square(s) == 1.0 && IsUnit(p) && IsUnit(l)
    ensures IsReversible(RotationShape(c, s, p, l))
  {
    hide IsUnitary, RotationShape, Adjoint, Square;
    RotationUnitary(c, s, p, l);
    RotationAdjoint(c, s, p, l);
    UnitProducts(p, l);
    UnitProducts(l, p);
    SquareParts(c, s);
    RotationUnitary(c, -s, Conj(l), Conj(p));
  }

  lemma AntidiagonalUnitary(z: Complex, w: Complex)
    requires IsUnit(z) && IsUnit(w)
    ensures IsUnitary(Matrix2(ZERO, z, w, ZERO))
  {
    hide Mul, Conj, Add, NormSq;
    MulZero(Conj(w));
    RealConj(0.0);
    MulZero(z);
    ZeroSums();
  }

  lemma AntidiagonalReversible(z: Complex, w: Complex)
    requires IsUnit(z) && IsUnit(w)
    ensures IsReversible(Matrix2(ZERO, z, w, ZERO))
  {
    hide IsUnitary, Conj, IsUnit;
    RealConj(0.0);
    UnitProducts(z, w);
    UnitProducts(w, z);
    AntidiagonalUnitary(z, w);
    AntidiagonalUnitary(Conj(w), Conj(z));
  }

  // ---------------------------------------------------------------- the table

  lemma RootFlipReversible(r: real, s: real)
    requires 4.0 * (r * r) == 1.0 && (s == r || s == -r)
    ensures IsReversible(Matrix2(Complex(r, s), Complex(r, -s), Complex(r, -s), Complex(r, s)))
  {
    hide IsReversible, NormSq, Mul, Conj;
    RootFlipNorms(r, s);
    XFormReversible(Complex(r, s), Complex(r, -s));
  }

  lemma RootFlipNorms(r: real, s: real)
    requires 4.0 * (r * r) == 1.0 && (s == r || s == -r)
    ensures NormSq(Complex(r, s)) + NormSq(Complex(r, -s)) == 1.0
    ensures Mul(Conj(Complex(r, s)), Complex(r, -s)).re == 0.0
  {
    assert s * s == r * r && -s * -s == s * s;
  }

  lemma UnitNumbers(z: Complex)
    requires (z.im == 0.0 && (z.re == 1.0 || z.re == -1.0)) || (z.re == 0.0 && (z.im == 1.0 || z.im == -1.0))
    ensures IsUnit(z)
  {
  }

  lemma EighthIsUnit(h: real, z: Complex)
    requires IsRootHalf(h) && z.re == h && (z.im == h || z.im == -h)
    ensures IsUnit(z)
  {
    if z.im == -h { assert -h * -h == h * h; }
  }

  lemma ScaleUnit(r: real)
    ensures Scale(r, ONE) == Complex(r, 0.0) && Scale(r, Complex(-1.0, 0.0)) == Complex(-r, 0.0)
  {
  }

  lemma HadamardReversible(h: real)
    requires IsRootHalf(h)
    ensures IsReversible(HMatrix(h))
  {
    hide IsReversible, Mul, Scale, NormSq, Square, IsRootHalf;
    var l := Complex(-1.0, 0.0);
    UnitNumbers(ONE);
    UnitNumbers(l);
    MulOne(l);
    ScaleUnit(h);
    ScaleUnit(-h);
    HalfSquares(h);
    RotationReversible(h, h, ONE, l);
  }

  lemma HalfSquares(h: real)
    requires IsRootHalf(h)
    ensures Square(h) + Square(h) == 1.0
  {
  }

  /** The phase of a diagonal gate without parameter is a unit. */
  lemma PhaseIsUnit(h: real, name: GateName)
    requires IsRootHalf(h) && name in {Z, S, Sdg, T, Tdg}
    ensures IsUnit(PhaseOf(h, name))
  {
    hide IsUnit, IsRootHalf;
    var z := PhaseOf(h, name);
    if name in {T, Tdg} { EighthIsUnit(h, z); } else { UnitNumbers(z); }
  }

  predicate IgnoresAngles(name: GateName) {
    name in {Id, I, X, Y, Z, H, S, Sdg, T, Tdg, Sx, Sxdg}
  }

  lemma AnglesDoNotMatter(trig: Trig, name: GateName, angles: seq<real>)
    requires IgnoresAngles(name)
    ensures SingleQubitMatrix(trig, name, angles) == SingleQubitMatrix(trig, name, [])
  {
  }

  lemma IdentityMatrices(trig: Trig)
    ensures SingleQubitMatrix(trig, Id, []) == Some(Diagonal(ONE))
      && SingleQubitMatrix(trig, I, []) == Some(Diagonal(ONE))
  {
  }

  lemma RootFlipMatrices(trig: Trig, r: real)
    requires r == 0.5
    ensures SingleQubitMatrix(trig, Sx, [])
      == Some(Matrix2(Complex(r, r), Complex(r, -r), Complex(r, -r), Complex(r, r)))
    ensures SingleQubitMatrix(trig, Sxdg, [])
      == Some(Matrix2(Complex(r, -r), Complex(r, r), Complex(r, r), Complex(r, -r)))
    ensures 4.0 * (r * r) == 1.0 && - -r == r
  {
  }

  lemma YReversible(z: Complex, w: Complex)
    requires z.re == 0.0 && w.re == 0.0 && z.im == -1.0 && w.im == 1.0
    ensures IsReversible(Matrix2(ZERO, z, w, ZERO))
  {
    hide IsReversible, IsUnit;
    UnitNumbers(z);
    UnitNumbers(w);
    AntidiagonalReversible(z, w);
  }

  lemma RootReversible(trig: Trig, name: GateName, r: real)
    requires name in {Sx, Sxdg} && r == 0.5
    ensures SingleQubitMatrix(trig, name, []).Some? && IsReversible(SingleQubitMatrix(trig, name, []).value)
  {
    hide IsReversible, SingleQubitMatrix;
    RootFlipMatrices(trig, r);
    var s := if name == Sx then r else -r;
    RootFlipReversible(r, s);
  }

  lemma XYReversible(trig: Trig, name: GateName)
    requires name in {X, Y}
    ensures SingleQubitMatrix(trig, name, []).Some? && IsReversible(SingleQubitMatrix(trig, name, []).value)
  {
    hide IsReversible, IsUnit;
    if name == X {
      UnitNumbers(ONE);
      AntidiagonalReversible(ONE, ONE);
    } else {
      YReversible(Complex(0.0, -1.0), Complex(0.0, 1.0));
    }
  }

  lemma IdentityReversible(trig: Trig, name: GateName)
    requires name in {Id, I}
    ensures SingleQubitMatrix(trig, name, []).Some? && IsReversible(SingleQubitMatrix(trig, name, []).value)
  {
    hide IsReversible, IsUnit, SingleQubitMatrix;
    IdentityMatrices(trig);
    UnitNumbers(ONE);
    DiagonalReversible(ONE, ONE);
  }

  lemma HReversible(trig: Trig)
    requires IsRootHalf(trig.half)
    ensures SingleQubitMatrix(trig, H, []).Some? && IsReversible(SingleQubitMatrix(trig, H, []).value)
  {
    HadamardReversible(trig.half);
    hide IsReversible, IsRootHalf, SingleQubitMatrix, HMatrix;
    FixedMatrices(trig, []);
  }

  lemma PhaseReversible(trig: Trig, name: GateName)
    requires IsRootHalf(trig.half) && name in {Z, S, Sdg, T, Tdg}
    ensures SingleQubitMatrix(trig, name, []).Some? && IsReversible(SingleQubitMatrix(trig, name, []).value)
  {
    hide IsReversible, IsUnit, IsRootHalf, SingleQubitMatrix, PhaseOf;
    PhaseIsUnit(trig.half, name);
    UnitNumbers(ONE);
    FixedPhaseMatrix(trig, name);
    DiagonalReversible(ONE, PhaseOf(trig.half, name));
  }

  lemma FixedReversible(trig: Trig, name: GateName, angles: seq<real>)
    requires TrigLaws(trig) && IgnoresAngles(name)
    ensures SingleQubitMatrix(trig, name, angles).Some? && IsReversible(SingleQubitMatrix(trig, name, angles).value)
  {
    RootHalf(trig);
    hide TrigLaws, IsReversible, IsRootHalf, SingleQubitMatrix;
    AnglesDoNotMatter(trig, name, angles);
    if name in {Id, I} {
      IdentityReversible(trig, name);
    } else if name in {X, Y} {
      XYReversible(trig, name);
    } else if name == H {
      HReversible(trig);
    } else if name in {Sx, Sxdg} {
      RootReversible(trig, name, 0.5);
    } else {
      PhaseReversible(trig, name);
    }
  }

  lemma TurnNorms(c: real, s: real)
    requires IsUnit(Complex(c, s))
    ensures NormSq(Complex(c, 0.0)) + NormSq(Complex(0.0, -s)) == 1.0
    ensures Mul(Conj(Complex(c, 0.0)), Complex(0.0, -s)).re == 0.0
    ensures IsUnit(Complex(c, -s)) && Square(c) + Square(s) == 1.0
  {
    assert -s * -s == s * s;
  }

  lemma RotationFormReversible(name: GateName, c: real, s: real)
    requires name in {Rx, Ry, Rz} && IsUnit(Complex(c, s))
    ensures IsReversible(RotationForm(name, c, s))
  {
    hide IsReversible, NormSq, Mul, Conj, IsUnit, Square, Scale;
    TurnNorms(c, s);
    if name == Rx {
      XFormReversible(Complex(c, 0.0), Complex(0.0, -s));
    } else if name == Ry {
      UnitNumbers(ONE);
      MulOne(ONE);
      ScaleUnit(c);
      ScaleUnit(s);
      ScaleUnit(-s);
      RotationReversible(c, s, ONE, ONE);
    } else {
      DiagonalReversible(Complex(c, -s), Complex(c, s));
    }
  }

  lemma U3Shape(trig: Trig, theta: real, phi: real, lambda: real)
    requires TrigLaws(trig)
    ensures U3Matrix(trig, theta, phi, lambda)
         == RotationShape(trig.cos(theta / 2.0), trig.sin(theta / 2.0),
                          Complex(trig.cos(phi), trig.sin(phi)), Complex(trig.cos(lambda), trig.sin(lambda)))
  {
    hide TrigLaws, Mul, CosOfSum, SinOfSum;
    AngleAddition(trig, phi, lambda);
    UnitProduct(trig.cos(phi), trig.sin(phi), trig.cos(lambda), trig.sin(lambda));
    MulComm(Complex(trig.cos(phi), trig.sin(phi)), Complex(trig.cos(lambda), trig.sin(lambda)));
  }

  lemma TurnNormsAt(trig: Trig, a: real)
    requires UnitCircle(trig)
    ensures Square(trig.cos(a)) + Square(trig.sin(a)) == 1.0
  {
    UnitAt(trig, a);
    TurnNorms(trig.cos(a), trig.sin(a));
  }

  lemma U3Reversible(trig: Trig, theta: real, phi: real, lambda: real)
    requires TrigLaws(trig) && UnitCircle(trig)
    ensures IsReversible(U3Matrix(trig, theta, phi, lambda))
  {
    hide IsReversible, RotationShape, U3Matrix, TrigLaws, UnitCircle, IsUnit, NormSq, Square;
    TurnNormsAt(trig, theta / 2.0);
    U3Shape(trig, theta, phi, lambda);
    UnitAt(trig, phi);
    UnitAt(trig, lambda);
    RotationReversible(trig.cos(theta / 2.0), trig.sin(theta / 2.0),
                       Complex(trig.cos(phi), trig.sin(phi)), Complex(trig.cos(lambda), trig.sin(lambda)));
  }

  lemma TurnReversible(trig: Trig, name: GateName, angle: real)
    requires UnitCircle(trig) && IsRotation(name)
    ensures IsReversible(RotationOf(trig, name, angle))
  {
    hide IsReversible, RotationForm, RotationMatrix, UnitCircle, IsUnit;
    if name in {Rx, Ry, Rz} {
      UnitAt(trig, angle / 2.0);
      RotationEntries(trig, name, angle, trig.cos(angle / 2.0), trig.sin(angle / 2.0));
      RotationFormReversible(name, trig.cos(angle / 2.0), trig.sin(angle / 2.0));
    } else {
      UnitAt(trig, angle);
      UnitNumbers(ONE);
      DiagonalReversible(ONE, Complex(trig.cos(angle), trig.sin(angle)));
    }
  }

  /** Every matrix of the gate table is unitary, and so is its adjoint. */
  lemma GateMatrixUnitary(trig: Trig, name: GateName, angles: seq<real>)
    requires TrigLaws(trig) && UnitCircle(trig) && SingleQubitMatrix(trig, name, angles).Some?
    ensures IsReversible(SingleQubitMatrix(trig, name, angles).value)
  {
    hide IsReversible, TrigLaws, UnitCircle, U3Matrix, RotationMatrix, PhaseMatrix;
    if IgnoresAngles(name) {
      FixedReversible(trig, name, angles);
    } else if IsRotation(name) {
      assert |angles| == 1 && angles == [angles[0]];
      TurnReversible(trig, name, angles[0]);
    } else if name == U2 {
      U3Reversible(trig, trig.pi / 2.0, angles[0], angles[1]);
    } else {
      U3Reversible(trig, angles[0], angles[1], angles[2]);
    }
  }

  // ---------------------------------------------------------------- undoing an operator

  lemma ConjSwap(z: Complex, w: Complex)
    ensures Conj(Mul(Conj(z), w)) == Mul(Conj(w), z)
  {
    hide Mul;
    ConjOfMul(Conj(z), w);
    ConjNorm(z);
    MulComm(z, Conj(w));
  }

  lemma ConjAdd(z: Complex, w: Complex)
    ensures Conj(Add(z, w)) == Add(Conj(z), Conj(w))
  {
  }

  lemma NormsAdd(x: real, y: real)
    requires x + y == 1.0
    ensures Add(Complex(x, 0.0), Complex(y, 0.0)) == ONE
  {
  }

  lemma AdjointProduct(m: Matrix2)
    requires IsUnitary(m)
    ensures Product(Adjoint(m), m) == IDENTITY
  {
    hide Mul, Add, Conj, NormSq;
    ConjNorm(m.m00); ConjNorm(m.m10); ConjNorm(m.m01); ConjNorm(m.m11);
    NormsAdd(NormSq(m.m00), NormSq(m.m10));
    NormsAdd(NormSq(m.m01), NormSq(m.m11));
    ConjSwap(m.m00, m.m01);
    ConjSwap(m.m10, m.m11);
    ConjAdd(Mul(Conj(m.m00), m.m01), Mul(Conj(m.m10), m.m11));
    RealConj(0.0);
  }

  lemma AdjointTwice(m: Matrix2)
    ensures Adjoint(Adjoint(m)) == m
  {
    hide Conj;
    ConjNorm(m.m00); ConjNorm(m.m10); ConjNorm(m.m01); ConjNorm(m.m11);
  }

  /** A reversible matrix, or an exchange not controlled by what it exchanges. */
  predicate CanUndo(op: Operator) {
    match op
    case Matrix(m, _, _) => IsReversible(m)
    case Exchange(controls, a, b) => a !in controls && b !in controls
  }

  function Undo(op: Operator): Operator {
    match op
    case Matrix(m, controls, target) => Matrix(Adjoint(m), controls, target)
    case Exchange(_, _, _) => op
  }

  lemma ExchangeTwice(controls: set<int>, a: int, b: int)
    requires a !in controls && b !in controls
    ensures var op: Operator := Exchange(controls, a, b); SameThrough(1.0, [op, op], [])
  {
    hide After, Through, Scale;
    var op: Operator := Exchange(controls, a, b);
    forall psi: State ensures Signed(1.0, Through([op, op], psi), Through([], psi)) {
      ThroughSmall(op, op, op, psi);
      forall k: set<int> ensures psi(k) == Scale(1.0, After(op, After(op, psi))(k)) {
        ScaleOne(psi(k));
        if controls <= k {
          AfterSwap(controls, a, b, After(op, psi), k);
          AfterSwap(controls, a, b, psi, SwapMembers(k, a, b));
          assert SwapMembers(SwapMembers(k, a, b), a, b) == k;
        } else {
          IdleAfter(op, After(op, psi), k);
          IdleAfter(op, psi, k);
        }
      }
    }
  }

  /** Undoing works on either side. */
  lemma UndoneBothWays(op: Operator)
    requires CanUndo(op)
    ensures SameThrough(1.0, [op, Undo(op)], []) && SameThrough(1.0, [Undo(op), op], [])
  {
    hide Product, SameThrough, IsUnitary, Adjoint;
    match op
    case Matrix(m, controls, target) =>
      AdjointProduct(m);
      AdjointProduct(Adjoint(m));
      AdjointTwice(m);
      InverseThrough(m, Adjoint(m), controls, target);
      InverseThrough(Adjoint(m), m, controls, target);
    case Exchange(controls, a, b) => ExchangeTwice(controls, a, b);
  }

  /** The operator of every accepted gate on distinct qubits can be undone. */
  lemma GateCanUndo(trig: Trig, gate: Gate)
    requires TrigLaws(trig) && UnitCircle(trig) && DistinctQubits(gate.qubits) && OperatorOf(trig, gate).Some?
    ensures CanUndo(OperatorOf(trig, gate).value)
  {
    hide IsReversible, SingleQubitMatrix, TrigLaws, UnitCircle;
    var angles := Angles(gate.parameters).value;
    hide Angles;
    if gate.name in {Ccx, Toffoli} {
      GateMatrixUnitary(trig, X, []);
    } else if IsTwoQubitName(gate.name) && gate.name != Swap {
      GateMatrixUnitary(trig, BaseName(gate.name), angles);
    } else if gate.name !in {Swap, Cswap, Fredkin} {
      GateMatrixUnitary(trig, gate.name, angles);
    }
  }

  ghost predicate Undoes(first: seq<Operator>, second: seq<Operator>) {
    SameThrough(1.0, first + second, []) && SameThrough(1.0, second + first, [])
  }

  lemma UndoesNothing()
    ensures Undoes([], [])
  {
    var none: seq<Operator> := [];
    assert none + none == none;
    SameRefl(none);
  }

  lemma UndoesMore(op: Operator, back: Operator, rest: seq<Operator>, undo: seq<Operator>)
    requires SameThrough(1.0, [op, back], []) && SameThrough(1.0, [back, op], []) && Undoes(rest, undo)
    ensures Undoes([op] + rest, undo + [back])
  {
    hide SameThrough;
    // op rest undo back ~ op back ~ nothing
    DropInside([op], rest + undo, [back]);
    assert [op] + (rest + undo) + [back] == ([op] + rest) + (undo + [back]) && [op] + [back] == [op, back];
    SameTrans(([op] + rest) + (undo + [back]), [op, back], []);
    // undo back op rest ~ undo rest ~ nothing
    DropInside(undo, [back, op], rest);
    assert undo + [back, op] + rest == (undo + [back]) + ([op] + rest);
    SameTrans((undo + [back]) + ([op] + rest), undo + rest, []);
  }

  predicate AllDistinct(operations: seq<Operation>)
    requires AllGates(operations)
  {
    forall i :: 0 <= i < |operations| ==> DistinctQubits(GateOf(operations[i]).qubits)
  }

  /** Any list of gates the engine runs can be undone. */
  lemma {:induction false} GatesUndone(trig: Trig, operations: seq<Operation>) returns (undo: seq<Operator>)
    requires TrigLaws(trig) && UnitCircle(trig) && AllGates(operations) && AllDistinct(operations)
    requires Operators(trig, operations).Some?
    ensures Undoes(Operators(trig, operations).value, undo)
    decreases |operations|
  {
    hide TrigLaws, UnitCircle, OperatorOf, DistinctQubits, CanUndo, Undo, Undoes;
    if |operations| == 0 {
      undo := [];
      UndoesNothing();
    } else {
      var rest := GatesUndone(trig, operations[1..]);
      assert DistinctQubits(GateOf(operations[0]).qubits);
      GateCanUndo(trig, GateOf(operations[0]));
      var op := OperatorOf(trig, GateOf(operations[0])).value;
      UndoneBothWays(op);
      UndoesMore(op, Undo(op), Operators(trig, operations[1..]).value, rest);
      undo := rest + [Undo(op)];
    }
  }

  // ---------------------------------------------------------------- cancelling a context

  lemma ParallelBetween(first: State, psi: State, phi: State, last: State)
    requires Signed(1.0, psi, first) && Parallel(psi, phi) && Signed(1.0, phi, last)
    ensures Parallel(first, last)
  {
    hide Signed, Parallel;
    SignedSym(psi, first);
    SignedIsParallel(1.0, first, psi);
    SignedIsParallel(1.0, phi, last);
    ParallelTrans(first, psi, phi);
    ParallelTrans(first, phi, last);
  }

  /** What agrees between two undone contexts agrees on its own. */
  lemma CancelContext(
    left: seq<Operator>, p: seq<Operator>, q: seq<Operator>, right: seq<Operator>,
    beforeLeft: seq<Operator>, afterRight: seq<Operator>)
    requires ParallelThrough(left + p + right, left + q + right)
    requires Undoes(left, beforeLeft) && Undoes(right, afterRight)
    ensures ParallelThrough(p, q)
  {
    hide Signed, Parallel, Through;
    forall psi: State ensures Parallel(Through(p, psi), Through(q, psi)) {
      var phi := Through(beforeLeft, psi);
      assert Parallel(Through(left + p + right, phi), Through(left + q + right, phi));
      ThroughParallel(afterRight, Through(left + p + right, phi), Through(left + q + right, phi));
      Uncovered(left, p, right, beforeLeft, afterRight, psi);
      Uncovered(left, q, right, beforeLeft, afterRight, psi);
      ParallelBetween(Through(p, psi), Through(afterRight, Through(left + p + right, phi)),
                      Through(afterRight, Through(left + q + right, phi)), Through(q, psi));
    }
  }

  lemma Uncovered(
    left: seq<Operator>, p: seq<Operator>, right: seq<Operator>, beforeLeft: seq<Operator>, afterRight: seq<Operator>,
    psi: State)
    requires Undoes(left, beforeLeft) && Undoes(right, afterRight)
    ensures Signed(1.0, Through(afterRight, Through(left + p + right, Through(beforeLeft, psi))), Through(p, psi))
  {
    hide Signed, Through, Undoes;
    var whole := (beforeLeft + left) + (p + (right + afterRight));
    ThroughConcat(beforeLeft, left + p + right, psi);
    ThroughConcat(beforeLeft + (left + p + right), afterRight, psi);
    assert beforeLeft + (left + p + right) + afterRight == whole;
    Stripped(left, p, right, beforeLeft, afterRight);
    assert Signed(1.0, Through(whole, psi), Through(p, psi));
  }

  lemma Stripped(
    left: seq<Operator>, p: seq<Operator>, right: seq<Operator>, beforeLeft: seq<Operator>, afterRight: seq<Operator>)
    requires Undoes(left, beforeLeft) && Undoes(right, afterRight)
    ensures SameThrough(1.0, (beforeLeft + left) + (p + (right + afterRight)), p)
  {
    hide SameThrough;
    var whole, tail := (beforeLeft + left) + (p + (right + afterRight)), p + (right + afterRight);
    DropInside([], beforeLeft + left, tail);
    assert [] + (beforeLeft + left) + tail == whole && [] + tail == tail;
    DropInside(p, right + afterRight, []);
    assert tail + [] == tail && p + [] == p;
    SameTrans(whole, tail, p);
  }

  // ---------------------------------------------------------------- the norm over a whole run

  lemma FlipIsUnitary()
    ensures IsUnitary(FLIP)
  {
    hide IsUnitary, IsUnit;
    UnitNumbers(ONE);
    AntidiagonalUnitary(ONE, ONE);
  }

  lemma NormCongruent(qubits: seq<int>, psi: State, phi: State)
    requires forall k: set<int> :: psi(k) == phi(k)
    ensures Norm(qubits, psi) == Norm(qubits, phi)
  {
    hide NormSq;
    Sums.SumCongruent(qubits, {}, Weights(psi), Weights(phi));
  }

  /** An exchange is three controlled NOTs. */
  lemma ExchangeIsThreeFlips(controls: set<int>, a: int, b: int, psi: State, k: set<int>)
    requires a !in controls && b !in controls && a != b
    ensures var there: Operator := Matrix(FLIP, controls + {a}, b);
      var back: Operator := Matrix(FLIP, controls + {b}, a);
      After(there, After(back, After(there, psi)))(k) == After(Exchange(controls, a, b), psi)(k)
  {
    hide After;
    var there: Operator := Matrix(FLIP, controls + {a}, b);
    var once := After(there, psi);
    var twice := After(Matrix(FLIP, controls + {b}, a), once);
    ControlledFlipAt(controls + {a}, b, twice, k);
    var k1 := if controls + {a} <= k then Flip(k, b) else k;
    ControlledFlipAt(controls + {b}, a, once, k1);
    var k2 := if controls + {b} <= k1 then Flip(k1, a) else k1;
    ControlledFlipAt(controls + {a}, b, psi, k2);
    var k3 := if controls + {a} <= k2 then Flip(k2, b) else k2;
    if controls <= k {
      AfterSwap(controls, a, b, psi, k);
      ThreeFlips(controls, a, b, k);
    } else {
      IdleAfter(Exchange(controls, a, b), psi, k);
    }
  }

  lemma ThreeFlips(controls: set<int>, a: int, b: int, k: set<int>)
    requires a !in controls && b !in controls && a != b && controls <= k
    ensures var k1 := if controls + {a} <= k then Flip(k, b) else k;
      var k2 := if controls + {b} <= k1 then Flip(k1, a) else k1;
      (if controls + {a} <= k2 then Flip(k2, b) else k2) == SwapMembers(k, a, b)
  {
  }

  lemma IndexOf(qubits: seq<int>, q: int) returns (t: nat)
    requires q in qubits
    ensures t < |qubits| && qubits[t] == q
  {
    t :| t < |qubits| && qubits[t] == q;
  }

  lemma MatrixKeepsNorm(qubits: seq<int>, m: Matrix2, controls: set<int>, target: int, psi: State)
    requires Sums.Distinct(qubits) && target in qubits && IsUnitary(m)
    ensures Norm(qubits, After(Matrix(m, controls, target), psi)) == Norm(qubits, psi)
  {
    hide IsUnitary, After, Norm;
    var t := IndexOf(qubits, target);
    UnitaryPreservesNorm(qubits, t, m, controls, psi);
  }

  lemma OperatorKeepsNorm(qubits: seq<int>, op: Operator, psi: State)
    requires Sums.Distinct(qubits) && CanUndo(op) && forall q :: q in Support(op) ==> q in qubits
    ensures Norm(qubits, After(op, psi)) == Norm(qubits, psi)
  {
    hide IsUnitary, After, Norm;
    match op
    case Matrix(m, controls, target) =>
      assert target in Support(op);
      MatrixKeepsNorm(qubits, m, controls, target, psi);
    case Exchange(controls, a, b) =>
      assert a in Support(op) && b in Support(op);
      if a == b {
        forall k: set<int> ensures After(op, psi)(k) == psi(k) {
          if controls <= k { AfterSwap(controls, a, b, psi, k); } else { IdleAfter(op, psi, k); }
        }
        NormCongruent(qubits, After(op, psi), psi);
      } else {
        FlipIsUnitary();
        var there: Operator := Matrix(FLIP, controls + {a}, b);
        var once := After(there, psi);
        var twice := After(Matrix(FLIP, controls + {b}, a), once);
        MatrixKeepsNorm(qubits, FLIP, controls + {a}, b, psi);
        MatrixKeepsNorm(qubits, FLIP, controls + {b}, a, once);
        MatrixKeepsNorm(qubits, FLIP, controls + {a}, b, twice);
        forall k: set<int> ensures After(there, twice)(k) == After(op, psi)(k) {
          ExchangeIsThreeFlips(controls, a, b, psi, k);
        }
        NormCongruent(qubits, After(there, twice), After(op, psi));
      }
  }

  lemma SupportOfGate(trig: Trig, gate: Gate)
    requires OperatorOf(trig, gate).Some?
    ensures forall q :: q in Support(OperatorOf(trig, gate).value) ==>
      exists i :: 0 <= i < |gate.qubits| && q == gate.qubits[i]
  {
    hide SingleQubitMatrix, Angles;
  }

  predicate UsesOnly(qubits: seq<int>, gate: Gate) {
    forall i :: 0 <= i < |gate.qubits| ==> gate.qubits[i] in qubits
  }

  lemma UsedSupport(qubits: seq<int>, gate: Gate, op: Operator)
    requires UsesOnly(qubits, gate)
    requires forall q :: q in Support(op) ==> exists i :: 0 <= i < |gate.qubits| && q == gate.qubits[i]
    ensures forall q :: q in Support(op) ==> q in qubits
  {
  }

  predicate AllUseOnly(qubits: seq<int>, operations: seq<Operation>) {
    && AllGates(operations) && AllDistinct(operations)
    && forall i :: 0 <= i < |operations| ==> UsesOnly(qubits, GateOf(operations[i]))
  }

  ghost predicate Lawful(trig: Trig) {
    TrigLaws(trig) && UnitCircle(trig)
  }

  lemma {:induction false} ThroughKeepsNorm(trig: Trig, operations: seq<Operation>, qubits: seq<int>, psi: State)
    requires Sums.Distinct(qubits) && AllUseOnly(qubits, operations) && Lawful(trig)
    requires Operators(trig, operations).Some?
    ensures Norm(qubits, Through(Operators(trig, operations).value, psi)) == Norm(qubits, psi)
    decreases |operations|
  {
    hide TrigLaws, UnitCircle, OperatorOf, DistinctQubits, CanUndo, Norm, After, UsesOnly, Support;
    if |operations| > 0 {
      var gate := GateOf(operations[0]);
      assert DistinctQubits(gate.qubits) && UsesOnly(qubits, gate);
      GateCanUndo(trig, gate);
      SupportOfGate(trig, gate);
      var op := OperatorOf(trig, gate).value;
      UsedSupport(qubits, gate, op);
      OperatorKeepsNorm(qubits, op, psi);
      assert AllUseOnly(qubits, operations[1..]);
      ThroughKeepsNorm(trig, operations[1..], qubits, After(op, psi));
      ThroughFirst(op, Operators(trig, operations[1..]).value, psi);
    }
  }

  /** A simulation of gates keeps the total squared amplitude, whatever it starts from. */
  lemma GatesKeepNorm(
    trig: Trig, outcome: nat -> bool, operations: seq<Operation>, qubits: seq<int>, w: World)
    requires Sums.Distinct(qubits) && AllUseOnly(qubits, operations) && Lawful(trig)
    requires Run(trig, outcome, operations, w).Some?
    ensures Norm(qubits, Run(trig, outcome, operations, w).value.state) == Norm(qubits, w.state)
  {
    hide Lawful, Operators, AllDistinct, Norm, Through, UsesOnly, Run;
    GatesRun(trig, outcome, operations, w);
    ThroughKeepsNorm(trig, operations, qubits, w.state);
  }

  /** The two branches of a measurement split the weight of the state between them. */
  lemma MeasurementSplitsNorm(qubits: seq<int>, psi: State, q: int)
    ensures Add(Norm(qubits, Project(psi, q, false)), Norm(qubits, Project(psi, q, true))) == Norm(qubits, psi)
  {
    hide Weights, Project;
    SplitSum(qubits, {}, psi, q);
  }

  lemma SplitWeight(psi: State, q: int, k: set<int>)
    ensures Add(Weights(Project(psi, q, false))(k), Weights(Project(psi, q, true))(k)) == Weights(psi)(k)
  {
    hide NormSq;
    ZeroSums();
  }

  lemma {:induction false} SplitSum(ids: seq<int>, ones: set<int>, psi: State, q: int)
    ensures Add(Sums.Sum(ids, ones, Weights(Project(psi, q, false))),
                Sums.Sum(ids, ones, Weights(Project(psi, q, true))))
         == Sums.Sum(ids, ones, Weights(psi))
    decreases |ids|
  {
    hide Weights, Project, Add;
    if |ids| == 0 {
      SplitWeight(psi, q, ones);
    } else {
      var rest, last := ids[..|ids| - 1], ids[|ids| - 1];
      var f, g := Weights(Project(psi, q, false)), Weights(Project(psi, q, true));
      SplitSum(rest, ones, psi, q);
      SplitSum(rest, ones + {last}, psi, q);
      AddSwap(Sums.Sum(rest, ones, f), Sums.Sum(rest, ones + {last}, f),
              Sums.Sum(rest, ones, g), Sums.Sum(rest, ones + {last}, g));
    }
  }
}
