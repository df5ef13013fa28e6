/** Laws of the operators of Semantics: linearity, products, commutation, and norm preservation. */
module OperatorLaws {
  import opened ComplexNumbers
  import opened Circuits
  import opened Semantics
  import Sums = Summation

  // ---------------------------------------------------------------- equality of states up to a sign

  predicate IsSign(s: real) {
    s == 1.0 || s == -1.0
  }

  /** phi is s times psi, amplitude by amplitude. */
  ghost predicate Signed(s: real, psi: State, phi: State) {
    forall k: set<int> :: phi(k) == Scale(s, psi(k))
  }

  lemma SignedAt(s: real, psi: State, phi: State, k: set<int>)
    requires Signed(s, psi, phi)
    ensures phi(k) == Scale(s, psi(k))
  {
  }

  lemma ScaleOne(z: Complex)
    ensures Scale(1.0, z) == z
  {
  }

  lemma ScaleProduct(s: real, t: real, z: Complex)
    requires IsSign(s) && IsSign(t)
    ensures Scale(t, Scale(s, z)) == Scale(s * t, z) && IsSign(s * t)
  {
  }

  lemma ScaleLinear(s: real, a: Complex, x: Complex, b: Complex, y: Complex)
    ensures Add(Mul(a, Scale(s, x)), Mul(b, Scale(s, y))) == Scale(s, Add(Mul(a, x), Mul(b, y)))
  {
    hide Mul, Add, Scale;
    var c := Complex(s, 0.0);
    ScaleIsProduct(s, x); ScaleIsProduct(s, y); ScaleIsProduct(s, Add(Mul(a, x), Mul(b, y)));
    Swap3(a, c, x);
    Swap3(b, c, y);
    MulAdd(c, Mul(a, x), Mul(b, y));
  }

  lemma ScaleIsProduct(s: real, z: Complex)
    ensures Scale(s, z) == Mul(Complex(s, 0.0), z)
  {
  }

  lemma SignedTrans(s: real, t: real, psi: State, phi: State, chi: State)
    requires IsSign(s) && IsSign(t) && Signed(s, psi, phi) && Signed(t, phi, chi)
    ensures IsSign(s * t) && Signed(s * t, psi, chi)
  {
    hide Scale;
    forall k: set<int> ensures chi(k) == Scale(s * t, psi(k)) {
      SignedAt(s, psi, phi, k);
      SignedAt(t, phi, chi, k);
      ScaleProduct(s, t, psi(k));
    }
    ScaleProduct(s, t, ZERO);
  }

  /** Operators are linear, so a factor passes through them. */
  lemma AfterSigned(op: Operator, s: real, psi: State, phi: State)
    requires Signed(s, psi, phi)
    ensures Signed(s, After(op, psi), After(op, phi))
  {
    hide Scale, Mul, Add, Coefficient, Source;
    forall k: set<int> ensures After(op, phi)(k) == Scale(s, After(op, psi)(k)) {
      var a, b := Source(op, k, false), Source(op, k, true);
      SignedAt(s, psi, phi, a);
      SignedAt(s, psi, phi, b);
      ScaleLinear(s, Coefficient(op, k, false), psi(a), Coefficient(op, k, true), psi(b));
    }
  }

  lemma ProjectSigned(qubit: int, outcome: bool, s: real, psi: State, phi: State)
    requires Signed(s, psi, phi)
    ensures Signed(s, Project(psi, qubit, outcome), Project(phi, qubit, outcome))
  {
  }

  // ---------------------------------------------------------------- products

  function Product(a: Matrix2, b: Matrix2): Matrix2 {
    Matrix2(Add(Mul(a.m00, b.m00), Mul(a.m01, b.m10)), Add(Mul(a.m00, b.m01), Mul(a.m01, b.m11)),
            Add(Mul(a.m10, b.m00), Mul(a.m11, b.m10)), Add(Mul(a.m10, b.m01), Mul(a.m11, b.m11)))
  }

  const IDENTITY := Matrix2(ONE, ZERO, ZERO, ONE)

  function ScaleMatrix(s: real, m: Matrix2): Matrix2 {
    Matrix2(Scale(s, m.m00), Scale(s, m.m01), Scale(s, m.m10), Scale(s, m.m11))
  }

  /** a(cx + dy) + b(ex + fy) = (ac + be)x + (ad + bf)y. */
  lemma Regroup(a: Complex, b: Complex, c: Complex, d: Complex, e: Complex, f: Complex, x: Complex, y: Complex)
    ensures Add(Mul(a, Add(Mul(c, x), Mul(d, y))), Mul(b, Add(Mul(e, x), Mul(f, y))))
         == Add(Mul(Add(Mul(a, c), Mul(b, e)), x), Mul(Add(Mul(a, d), Mul(b, f)), y))
  {
    hide Mul, Add;
    MulAdd(a, Mul(c, x), Mul(d, y));
    MulAdd(b, Mul(e, x), Mul(f, y));
    MulAssoc(a, c, x); MulAssoc(a, d, y); MulAssoc(b, e, x); MulAssoc(b, f, y);
    AddMul(Mul(a, c), Mul(b, e), x);
    AddMul(Mul(a, d), Mul(b, f), y);
    AddSwap(Mul(Mul(a, c), x), Mul(Mul(a, d), y), Mul(Mul(b, e), x), Mul(Mul(b, f), y));
  }

  lemma AddMul(p: Complex, q: Complex, z: Complex)
    ensures Mul(Add(p, q), z) == Add(Mul(p, z), Mul(q, z))
  {
  }

  lemma AddSwap(p: Complex, q: Complex, r: Complex, s: Complex)
    ensures Add(Add(p, q), Add(r, s)) == Add(Add(p, r), Add(q, s))
  {
  }

  /** The two amplitudes of a pair after an active matrix operator. */
  lemma MatrixAt(m: Matrix2, controls: set<int>, target: int, psi: State, k: set<int>)
    requires controls <= k - {target}
    ensures After(Matrix(m, controls, target), psi)(k)
         == Add(Mul(MatrixEntry(m, target in k, false), psi(k - {target})),
                Mul(MatrixEntry(m, target in k, true), psi(k + {target})))
  {
    hide Mul, Add;
    var op: Operator := Matrix(m, controls, target);
    assert Active(op, k);
    assert Source(op, k, false) == k - {target} && Source(op, k, true) == k + {target};
  }

  /** Applying b then a on the same controls and target applies the product a b. */
  lemma ProductLaw(a: Matrix2, b: Matrix2, controls: set<int>, target: int, psi: State)
    ensures Signed(1.0, After(Matrix(Product(a, b), controls, target), psi),
                   After(Matrix(a, controls, target), After(Matrix(b, controls, target), psi)))
  {
    hide Mul, Add, Scale, After;
    var opA: Operator := Matrix(a, controls, target);
    var opB: Operator := Matrix(b, controls, target);
    var opC: Operator := Matrix(Product(a, b), controls, target);
    var phi := After(opB, psi);
    forall k: set<int> ensures After(opA, phi)(k) == Scale(1.0, After(opC, psi)(k)) {
      ScaleOne(After(opC, psi)(k));
      if controls <= k - {target} {
        var low, high := k - {target}, k + {target};
        assert low - {target} == low && low + {target} == high && high - {target} == low && high + {target} == high;
        MatrixAt(a, controls, target, phi, k);
        MatrixAt(b, controls, target, psi, low);
        MatrixAt(b, controls, target, psi, high);
        MatrixAt(Product(a, b), controls, target, psi, k);
        var row := target in k;
        Regroup(MatrixEntry(a, row, false), MatrixEntry(a, row, true), b.m00, b.m01, b.m10, b.m11, psi(low), psi(high));
      } else {
        assert !Active(opA, k) && !Active(opB, k) && !Active(opC, k);
        IdleAfter(opA, phi, k);
        IdleAfter(opB, psi, k);
        IdleAfter(opC, psi, k);
      }
    }
  }

  /** The identity matrix, or its negative without controls, changes a state by that sign at most. */
  lemma IdentityLaw(controls: set<int>, target: int, psi: State)
    ensures Signed(1.0, psi, After(Matrix(IDENTITY, controls, target), psi))
  {
    hide Mul, Add, Scale, After;
    var op: Operator := Matrix(IDENTITY, controls, target);
    forall k: set<int> ensures After(op, psi)(k) == Scale(1.0, psi(k)) {
      ScaleOne(psi(k));
      if controls <= k - {target} {
        MatrixAt(IDENTITY, controls, target, psi, k);
        if target in k {
          assert k + {target} == k;
          OnlySecond(psi(k - {target}), psi(k));
        } else {
          assert k - {target} == k;
          OnlyFirst(psi(k), psi(k + {target}));
        }
      } else {
        IdleAfter(op, psi, k);
      }
    }
  }

  lemma ScaledMatrixLaw(s: real, m: Matrix2, target: int, psi: State)
    requires IsSign(s)
    ensures Signed(s, After(Matrix(m, {}, target), psi), After(Matrix(ScaleMatrix(s, m), {}, target), psi))
  {
    hide Mul, Add, Scale, After;
    forall k: set<int>
      ensures After(Matrix(ScaleMatrix(s, m), {}, target), psi)(k) == Scale(s, After(Matrix(m, {}, target), psi)(k))
    {
      MatrixAt(ScaleMatrix(s, m), {}, target, psi, k);
      MatrixAt(m, {}, target, psi, k);
      var row := target in k;
      ScaleCoefficients(s, MatrixEntry(m, row, false), psi(k - {target}), MatrixEntry(m, row, true), psi(k + {target}));
    }
  }

  lemma ScaleCoefficients(s: real, a: Complex, x: Complex, b: Complex, y: Complex)
    requires IsSign(s)
    ensures Add(Mul(Scale(s, a), x), Mul(Scale(s, b), y)) == Scale(s, Add(Mul(a, x), Mul(b, y)))
  {
    hide Mul, Add, Scale;
    MulComm(Scale(s, a), x); MulComm(Scale(s, b), y); MulComm(a, x); MulComm(b, y);
    ScaleLinear(s, x, a, y, b);
  }

  // ---------------------------------------------------------------- commutation

  ghost predicate Commute(p: Operator, q: Operator) {
    forall psi: State :: Signed(1.0, After(p, After(q, psi)), After(q, After(p, psi)))
  }

  /** p0(q0 x00 + q1 x01) + p1(q0 x10 + q1 x11) = q0(p0 x00 + p1 x10) + q1(p0 x01 + p1 x11). */
  lemma FourTerms(
    p0: Complex, p1: Complex, q0: Complex, q1: Complex, x00: Complex, x01: Complex, x10: Complex, x11: Complex)
    ensures Add(Mul(p0, Add(Mul(q0, x00), Mul(q1, x01))), Mul(p1, Add(Mul(q0, x10), Mul(q1, x11))))
         == Add(Mul(q0, Add(Mul(p0, x00), Mul(p1, x10))), Mul(q1, Add(Mul(p0, x01), Mul(p1, x11))))
  {
    hide Mul, Add;
    MulAdd(p0, Mul(q0, x00), Mul(q1, x01));
    MulAdd(p1, Mul(q0, x10), Mul(q1, x11));
    MulAdd(q0, Mul(p0, x00), Mul(p1, x10));
    MulAdd(q1, Mul(p0, x01), Mul(p1, x11));
    Swap3(p0, q0, x00); Swap3(p0, q1, x01); Swap3(p1, q0, x10); Swap3(p1, q1, x11);
    AddSwap(Mul(p0, Mul(q0, x00)), Mul(p0, Mul(q1, x01)), Mul(p1, Mul(q0, x10)), Mul(p1, Mul(q1, x11)));
  }

  lemma Swap3(p: Complex, q: Complex, x: Complex)
    ensures Mul(p, Mul(q, x)) == Mul(q, Mul(p, x))
  {
    hide Mul;
    MulAssoc(p, q, x);
    MulAssoc(q, p, x);
    MulComm(p, q);
  }

  /** An operator reads and moves only its own qubits. */
  lemma LocalPieces(p: Operator, q: Operator, k: set<int>, i: bool, j: bool)
    requires Support(p) !! Support(q)
    ensures Coefficient(q, Source(p, k, i), j) == Coefficient(q, k, j)
    ensures Source(q, Source(p, k, i), j) == Source(p, Source(q, k, j), i)
  {
    Untouched(p, q, k, i);
    Untouched(q, p, k, j);
    SourcesCross(p, q, k, i, j);
  }

  /** Moving within the support of p changes no member of the support of q. */
  lemma Untouched(p: Operator, q: Operator, k: set<int>, i: bool)
    requires Support(p) !! Support(q)
    ensures forall x :: x in Support(q) ==> (x in Source(p, k, i) <==> x in k)
    ensures Active(q, Source(p, k, i)) <==> Active(q, k)
    ensures q.Matrix? ==> (q.target in Source(p, k, i) <==> q.target in k)
  {
    assert forall x :: x in Support(q) ==> x !in Support(p);
    match q {
      case Matrix(_, controls, target) =>
        assert forall x :: x in controls ==> x in Support(q);
      case Exchange(controls, _, _) =>
        assert forall x :: x in controls ==> x in Support(q);
    }
  }

  lemma SourcesCross(p: Operator, q: Operator, k: set<int>, i: bool, j: bool)
    requires Support(p) !! Support(q)
    ensures Source(q, Source(p, k, i), j) == Source(p, Source(q, k, j), i)
  {
    Untouched(p, q, k, i);
    Untouched(q, p, k, j);
    forall x ensures x in Source(q, Source(p, k, i), j) <==> x in Source(p, Source(q, k, j), i) {
      SourceMember(q, Source(p, k, i), j, x);
      SourceMember(p, Source(q, k, j), i, x);
      SourceMember(q, k, j, x);
      SourceMember(p, k, i, x);
    }
  }

  /** Membership in a source, decided from the operator's own qubits. */
  predicate MemberAfter(op: Operator, k: set<int>, second: bool, x: int) {
    if !Active(op, k) then x in k
    else match op
      case Matrix(_, _, target) => if x == target then second else x in k
      case Exchange(_, a, b) => if x == a then b in k else if x == b then a in k else x in k
  }

  lemma SourceMember(op: Operator, k: set<int>, second: bool, x: int)
    ensures x in Source(op, k, second) <==> MemberAfter(op, k, second, x)
    ensures x !in Support(op) ==> (MemberAfter(op, k, second, x) <==> x in k)
  {
  }

  /** Operators on disjoint qubits commute. */
  lemma DisjointCommute(p: Operator, q: Operator)
    requires Support(p) !! Support(q)
    ensures Commute(p, q)
  {
    hide Mul, Add, Scale, Coefficient, Source, Support;
    forall psi: State ensures Signed(1.0, After(p, After(q, psi)), After(q, After(p, psi))) {
      forall k: set<int> ensures After(q, After(p, psi))(k) == Scale(1.0, After(p, After(q, psi))(k)) {
        ScaleOne(After(p, After(q, psi))(k));
        LocalPieces(p, q, k, false, false); LocalPieces(p, q, k, false, true);
        LocalPieces(p, q, k, true, false); LocalPieces(p, q, k, true, true);
        LocalPieces(q, p, k, false, false); LocalPieces(q, p, k, false, true);
        LocalPieces(q, p, k, true, false); LocalPieces(q, p, k, true, true);
        FourTerms(Coefficient(p, k, false), Coefficient(p, k, true), Coefficient(q, k, false), Coefficient(q, k, true),
          psi(Source(q, Source(p, k, false), false)), psi(Source(q, Source(p, k, false), true)),
          psi(Source(q, Source(p, k, true), false)), psi(Source(q, Source(p, k, true), true)));
      }
    }
  }

  /** All weight on one basis state. */
  function BasisState(at: set<int>): State {
    (k: set<int>) => if k == at then ONE else ZERO
  }

  predicate IsDiagonal(m: Matrix2) {
    m.m01 == ZERO && m.m10 == ZERO
  }

  /** Every source an operator reads with a nonzero coefficient agrees with k about qubit x. */
  ghost predicate KeepsBit(q: Operator, x: int) {
    forall k: set<int>, j: bool :: Coefficient(q, k, j) == ZERO || (x in Source(q, k, j) <==> x in k)
  }

  lemma DiagonalAt(m: Matrix2, x: int, psi: State, k: set<int>)
    requires IsDiagonal(m)
    ensures After(Matrix(m, {}, x), psi)(k) == Mul(if x in k then m.m11 else m.m00, psi(k))
  {
    hide After, Mul, Add;
    MatrixAt(m, {}, x, psi, k);
    if x in k {
      assert k + {x} == k;
      FirstVanishes(psi(k - {x}), m.m11, psi(k));
    } else {
      assert k - {x} == k;
      SecondVanishes(m.m00, psi(k), psi(k + {x}));
    }
  }

  lemma FirstVanishes(z: Complex, b: Complex, w: Complex)
    ensures Add(Mul(ZERO, z), Mul(b, w)) == Mul(b, w)
  {
  }

  lemma SecondVanishes(a: Complex, z: Complex, w: Complex)
    ensures Add(Mul(a, z), Mul(ZERO, w)) == Mul(a, z)
  {
  }

  /** A diagonal gate on x commutes with every operator that keeps bit x. */
  lemma DiagonalCommute(m: Matrix2, x: int, q: Operator)
    requires IsDiagonal(m) && KeepsBit(q, x)
    ensures Commute(Matrix(m, {}, x), q)
  {
    hide Mul, Add, Scale, Coefficient, Source, IsDiagonal;
    var p: Operator := Matrix(m, {}, x);
    forall psi: State ensures Signed(1.0, After(p, After(q, psi)), After(q, After(p, psi))) {
      forall k: set<int> ensures After(q, After(p, psi))(k) == Scale(1.0, After(p, After(q, psi))(k)) {
        hide After;
        ScaleOne(After(p, After(q, psi))(k));
        var d := if x in k then m.m11 else m.m00;
        DiagonalAt(m, x, After(q, psi), k);
        DiagonalTerm(m, x, q, psi, k, false, d);
        DiagonalTerm(m, x, q, psi, k, true, d);
        AfterAt(q, psi, k);
        AfterAt(q, After(p, psi), k);
        var c0, c1 := Coefficient(q, k, false), Coefficient(q, k, true);
        var y0, y1 := psi(Source(q, k, false)), psi(Source(q, k, true));
        MulAdd(d, Mul(c0, y0), Mul(c1, y1));
      }
    }
  }

  lemma AfterAt(op: Operator, psi: State, k: set<int>)
    ensures After(op, psi)(k) == Add(Mul(Coefficient(op, k, false), psi(Source(op, k, false))),
                                     Mul(Coefficient(op, k, true), psi(Source(op, k, true))))
  {
  }

  /** One term of q after the diagonal gate: the diagonal entry at k comes out in front. */
  lemma DiagonalTerm(m: Matrix2, x: int, q: Operator, psi: State, k: set<int>, j: bool, d: Complex)
    requires IsDiagonal(m) && KeepsBit(q, x) && d == if x in k then m.m11 else m.m00
    ensures Mul(Coefficient(q, k, j), After(Matrix(m, {}, x), psi)(Source(q, k, j)))
         == Mul(d, Mul(Coefficient(q, k, j), psi(Source(q, k, j))))
  {
    hide Mul, Add, After, Coefficient, Source;
    var c, s := Coefficient(q, k, j), Source(q, k, j);
    DiagonalAt(m, x, psi, s);
    if c == ZERO {
      MulZero(After(Matrix(m, {}, x), psi)(s));
      MulZero(psi(s));
      MulZero(d);
    } else {
      Swap3(c, d, psi(s));
    }
  }

  /** alpha I + beta X. */
  predicate IsXForm(m: Matrix2) {
    m.m00 == m.m11 && m.m01 == m.m10
  }

  function Flip(k: set<int>, x: int): set<int> {
    if x in k then k - {x} else k + {x}
  }

  lemma XFormAt(m: Matrix2, x: int, psi: State, k: set<int>)
    requires IsXForm(m)
    ensures After(Matrix(m, {}, x), psi)(k) == Add(Mul(m.m00, psi(k)), Mul(m.m01, psi(Flip(k, x))))
  {
    hide After, Mul, Add;
    MatrixAt(m, {}, x, psi, k);
    if x in k {
      assert k + {x} == k;
      AddComm(Mul(m.m10, psi(k - {x})), Mul(m.m11, psi(k)));
    } else {
      assert k - {x} == k;
    }
  }

  lemma AddComm(z: Complex, w: Complex)
    ensures Add(z, w) == Add(w, z)
  {
  }

  /** An X-form gate on x commutes with a NOT of x controlled elsewhere. */
  lemma XFormCommute(m: Matrix2, controls: set<int>, x: int)
    requires IsXForm(m) && x !in controls
    ensures Commute(Matrix(m, {}, x), Matrix(FLIP, controls, x))
  {
    hide Mul, Add, Scale, IsXForm;
    var p: Operator := Matrix(m, {}, x);
    var q: Operator := Matrix(FLIP, controls, x);
    forall psi: State ensures Signed(1.0, After(p, After(q, psi)), After(q, After(p, psi))) {
      forall k: set<int> ensures After(q, After(p, psi))(k) == Scale(1.0, After(p, After(q, psi))(k)) {
        hide After;
        ScaleOne(After(p, After(q, psi))(k));
        ControlledFlipAt(controls, x, After(p, psi), k);
        ControlledFlipAt(controls, x, psi, k);
        ControlledFlipAt(controls, x, psi, Flip(k, x));
        XFormAt(m, x, After(q, psi), k);
        XFormAt(m, x, psi, k);
        XFormAt(m, x, psi, Flip(k, x));
        assert Flip(Flip(k, x), x) == k;
      }
    }
  }

  lemma ControlledFlipAt(controls: set<int>, x: int, psi: State, k: set<int>)
    requires x !in controls
    ensures After(Matrix(FLIP, controls, x), psi)(k) == if controls <= k then psi(Flip(k, x)) else psi(k)
    ensures controls <= k <==> controls <= Flip(k, x)
  {
    hide Mul, Add, After;
    var op: Operator := Matrix(FLIP, controls, x);
    assert controls <= k <==> controls <= k - {x};
    if controls <= k {
      MatrixAt(FLIP, controls, x, psi, k);
      OnlyFirst(psi(k - {x}), psi(k + {x}));
      OnlySecond(psi(k - {x}), psi(k + {x}));
    } else {
      IdleAfter(op, psi, k);
    }
  }

  // ---------------------------------------------------------------- norm

  /** (|m00|^2 + |m10|^2, |m01|^2 + |m11|^2) = (1, 1) and orthogonal columns. */
  predicate IsUnitary(m: Matrix2) {
    && NormSq(m.m00) + NormSq(m.m10) == 1.0
    && NormSq(m.m01) + NormSq(m.m11) == 1.0
    && Add(Mul(Conj(m.m00), m.m01), Mul(Conj(m.m10), m.m11)) == ZERO
  }

  function Conj(z: Complex): Complex {
    Complex(z.re, -z.im)
  }

  /** |z + w|^2 = |z|^2 + |w|^2 + 2 Re(conj(z) w). */
  lemma NormSqAdd(z: Complex, w: Complex)
    ensures NormSq(Add(z, w)) == NormSq(z) + NormSq(w) + 2.0 * Mul(Conj(z), w).re
  {
    SquareSumDifference(z.re, w.re);
    SquareSumDifference(z.im, w.im);
  }

  lemma ConjMul(a: Complex, x: Complex, b: Complex, y: Complex)
    ensures Mul(Conj(Mul(a, x)), Mul(b, y)) == Mul(Mul(Conj(a), b), Mul(Conj(x), y))
  {
    hide Mul, Conj;
    ConjOfMul(a, x);
    MulAssoc(Conj(a), Conj(x), Mul(b, y));
    Swap3(Conj(x), b, y);
    MulAssoc(Conj(a), b, Mul(Conj(x), y));
  }

  lemma ConjOfMul(a: Complex, x: Complex)
    ensures Conj(Mul(a, x)) == Mul(Conj(a), Conj(x))
  {
  }

  /** A unitary keeps |x|^2 + |y|^2. */
  lemma PairNorm(m: Matrix2, x: Complex, y: Complex)
    requires IsUnitary(m)
    ensures NormSq(Add(Mul(m.m00, x), Mul(m.m01, y))) + NormSq(Add(Mul(m.m10, x), Mul(m.m11, y)))
         == NormSq(x) + NormSq(y)
  {
    hide Mul, Add, NormSq, Conj;
    var px, py := NormSq(x), NormSq(y);
    NormSqAdd(Mul(m.m00, x), Mul(m.m01, y));
    NormSqAdd(Mul(m.m10, x), Mul(m.m11, y));
    NormSqMul(m.m00, x); NormSqMul(m.m01, y); NormSqMul(m.m10, x); NormSqMul(m.m11, y);
    ConjMul(m.m00, x, m.m01, y);
    ConjMul(m.m10, x, m.m11, y);
    var c, d, w := Mul(Conj(m.m00), m.m01), Mul(Conj(m.m10), m.m11), Mul(Conj(x), y);
    AddMul(c, d, w);
    MulZero(w);
    CrossCancels(Mul(c, w), Mul(d, w));
    Weighted(NormSq(m.m00), NormSq(m.m10), px);
    Weighted(NormSq(m.m01), NormSq(m.m11), py);
  }

  lemma CrossCancels(z: Complex, w: Complex)
    requires Add(z, w) == ZERO
    ensures z.re + w.re == 0.0
  {
  }

  lemma Weighted(a: real, b: real, p: real)
    requires a + b == 1.0
    ensures a * p + b * p == p
  {
    assert (a + b) * p == p;
  }

  /** The total probability weight over n qubits, as a sum over all basis states. */
  ghost function Norm(qubits: seq<int>, psi: State): Complex {
    Sums.Sum(qubits, {}, Weights(psi))
  }

  function Weights(psi: State): set<int> -> Complex {
    k => Complex(NormSq(psi(k)), 0.0)
  }

  lemma ComplexReals(a: real, b: real)
    ensures Add(Complex(a, 0.0), Complex(b, 0.0)) == Complex(a + b, 0.0)
  {
  }

  /** Unitary operators, with or without controls, preserve the norm. */
  lemma UnitaryPreservesNorm(qubits: seq<int>, t: nat, m: Matrix2, controls: set<int>, psi: State)
    requires Sums.Distinct(qubits) && t < |qubits| && IsUnitary(m)
    ensures Norm(qubits, After(Matrix(m, controls, qubits[t]), psi)) == Norm(qubits, psi)
  {
    hide Mul, Add, NormSq, After, IsUnitary;
    var x := qubits[t];
    var phi := After(Matrix(m, controls, x), psi);
    var f, g := Weights(phi), Weights(psi);
    var h := (k: set<int>) => Complex(NormSq(psi(k)) + NormSq(psi(k + {x})), 0.0);
    forall k | Sums.Between({}, Sums.Without(qubits, t), k)
      ensures Add(f(k), f(k + {x})) == Mul(ONE, h(k)) && Add(g(k), g(k + {x})) == Mul(ONE, h(k))
    {
      assert x !in k;
      MulOne(h(k));
      ComplexReals(NormSq(phi(k)), NormSq(phi(k + {x})));
      ComplexReals(NormSq(psi(k)), NormSq(psi(k + {x})));
      PairNormAt(m, controls, x, psi, k);
    }
    Sums.SumOut(qubits, t, {}, f, ONE, h);
    Sums.SumOut(qubits, t, {}, g, ONE, h);
  }

  lemma PairNormAt(m: Matrix2, controls: set<int>, x: int, psi: State, k: set<int>)
    requires IsUnitary(m) && x !in k
    ensures var phi := After(Matrix(m, controls, x), psi);
      NormSq(phi(k)) + NormSq(phi(k + {x})) == NormSq(psi(k)) + NormSq(psi(k + {x}))
  {
    hide Mul, Add, NormSq, After, IsUnitary;
    var high := k + {x};
    assert k - {x} == k && high - {x} == k && high + {x} == high;
    if controls <= k {
      MatrixAt(m, controls, x, psi, k);
      MatrixAt(m, controls, x, psi, high);
      PairNorm(m, psi(k), psi(high));
    } else {
      IdleAfter(Matrix(m, controls, x), psi, k);
      IdleAfter(Matrix(m, controls, x), psi, high);
    }
  }
}
