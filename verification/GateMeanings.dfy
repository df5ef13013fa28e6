/**
 * What each gate name means (src/engine/statevector.ts:63-151, 349-404): controlled gates by the gate they control, and
 * every single-qubit gate by the Pauli gates and the phase gate.
 */
module GateMeanings {
  import opened ComplexNumbers
  import opened Options
  import opened Circuits
  import opened Semantics
  import opened OperatorLaws
  import opened GateLaws

  // ---------------------------------------------------------------- which gates are accepted

  /** The operands a name takes; none for a name the engine does not know. */
  function OperandsOf(name: GateName): Option<nat> {
    match name
    case Other(_) => None
    case Ccx => Some(3)
    case Toffoli => Some(3)
    case Cswap => Some(3)
    case Fredkin => Some(3)
    case Cx => Some(2)
    case Cnot => Some(2)
    case Cz => Some(2)
    case Cy => Some(2)
    case Ch => Some(2)
    case Swap => Some(2)
    case Crx => Some(2)
    case Cry => Some(2)
    case Crz => Some(2)
    case Cp => Some(2)
    case Cu1 => Some(2)
    case _ => Some(1)
  }

  /** The angles a name insists on; the others take any number and ignore them. */
  function AnglesOf(name: GateName): Option<nat> {
    if name in {Rx, Ry, Rz, P, U1, Crx, Cry, Crz, Cp, Cu1} then Some(1)
    else if name == U2 then Some(2)
    else if name == U || name == U3 then Some(3)
    else None
  }

  predicate AllBound(parameters: seq<Parameter>) {
    forall i :: 0 <= i < |parameters| ==> parameters[i].Bound?
  }

  lemma {:induction false} AnglesInOrder(parameters: seq<Parameter>)
    ensures Angles(parameters).Some? <==> AllBound(parameters)
    ensures Angles(parameters).Some? ==>
      && |Angles(parameters).value| == |parameters|
      && forall i :: 0 <= i < |parameters| ==> Angles(parameters).value[i] == parameters[i].angle
    decreases |parameters|
  {
    if |parameters| > 0 { AnglesInOrder(parameters[..|parameters| - 1]); }
  }

  /** A gate is accepted exactly when it has its operands, its angles, and no parameter without a value. */
  lemma AcceptedExactlyWhen(trig: Trig, gate: Gate)
    ensures OperatorOf(trig, gate).Some?
       <==> && AllBound(gate.parameters) && OperandsOf(gate.name) == Some(|gate.qubits|)
            && (AnglesOf(gate.name).Some? ==> |gate.parameters| == AnglesOf(gate.name).value)
  {
    AnglesInOrder(gate.parameters);
    hide Angles, RotationMatrix, U3Matrix, PhaseMatrix, AllBound;
  }

  // ---------------------------------------------------------------- controlled gates

  /** A controlled gate, and the gate it controls. */
  predicate Controls(controlled: GateName, name: GateName) {
    || (controlled == Cx && name == X) || (controlled == Cnot && name == X)
    || (controlled == Cy && name == Y) || (controlled == Cz && name == Z)
    || (controlled == Ch && name == H)
    || (controlled == Crx && name == Rx) || (controlled == Cry && name == Ry) || (controlled == Crz && name == Rz)
    || (controlled == Cp && name == P) || (controlled == Cu1 && name == U1)
  }

  /** The state one gate leaves, which must be accepted. */
  function Acted(trig: Trig, gate: Gate, psi: State): State
    requires OperatorOf(trig, gate).Some?
  {
    After(OperatorOf(trig, gate).value, psi)
  }

  /** An operator with one more control does nothing where that is 0 and what it does without where that is 1. */
  lemma OneControlMore(m: Matrix2, controls: set<int>, target: int, control: int, psi: State, k: set<int>)
    requires control != target
    ensures After(Matrix(m, controls + {control}, target), psi)(k)
         == if control in k then After(Matrix(m, controls, target), psi)(k) else psi(k)
  {
    hide Mul, Add;
    var op, less := Operator.Matrix(m, controls + {control}, target), Operator.Matrix(m, controls, target);
    if control in k {
      assert Active(op, k) <==> Active(less, k);
      if Active(op, k) {
        MatrixAt(m, controls + {control}, target, psi, k);
        MatrixAt(m, controls, target, psi, k);
      } else {
        IdleAfter(op, psi, k);
        IdleAfter(less, psi, k);
      }
    } else {
      assert !Active(op, k);
      IdleAfter(op, psi, k);
    }
  }

  /**
   * A controlled gate is accepted exactly when the gate it controls is; where the control is 1 it acts as that gate on
   * the target, and where the control is 0 as nothing.
   */
  lemma ControlledActs(
    trig: Trig, controlled: GateName, name: GateName, parameters: seq<Parameter>, control: nat, target: nat, psi: State)
    requires Controls(controlled, name) && control != target
    ensures var two, one := Gate(controlled, parameters, [control, target]), Gate(name, parameters, [target]);
      && (OperatorOf(trig, two).Some? <==> OperatorOf(trig, one).Some?)
      && (OperatorOf(trig, two).Some? ==> forall k: set<int> ::
            Acted(trig, two, psi)(k) == if (control as int) in k then Acted(trig, one, psi)(k) else psi(k))
  {
    hide After, RotationMatrix, PhaseMatrix;
    var two, one := Gate(controlled, parameters, [control, target]), Gate(name, parameters, [target]);
    var op := OperatorOf(trig, two);
    if op.Some? {
      var m := op.value.m;
      assert op.value == Matrix(m, {control}, target) && OperatorOf(trig, one) == Some(Matrix(m, {}, target));
      hide OperatorOf;
      assert {} + {control as int} == {control as int};
      forall k: set<int>
        ensures After(op.value, psi)(k)
          == if (control as int) in k then After(Matrix(m, {}, target), psi)(k) else psi(k)
      {
        OneControlMore(m, {}, target, control, psi, k);
      }
    }
  }

  /** A gate on three qubits, and the gate on the last two that its first one controls. */
  predicate ControlsPair(controlled: GateName, name: GateName) {
    (controlled in {Ccx, Toffoli} && name == Cx) || (controlled in {Cswap, Fredkin} && name == Swap)
  }

  lemma PairActs(
    trig: Trig, controlled: GateName, name: GateName, parameters: seq<Parameter>, control: nat, a: nat, b: nat,
    psi: State, k: set<int>)
    requires ControlsPair(controlled, name) && control != a && control != b && AllBound(parameters)
    ensures var three, two := Gate(controlled, parameters, [control, a, b]), Gate(name, parameters, [a, b]);
      && OperatorOf(trig, three).Some? && OperatorOf(trig, two).Some?
      && Acted(trig, three, psi)(k) == if (control as int) in k then Acted(trig, two, psi)(k) else psi(k)
  {
    hide After, RotationMatrix, PhaseMatrix;
    AnglesInOrder(parameters);
    hide Angles;
    if name == Cx {
      assert {control as int, a as int} == {a as int} + {control as int};
      OneControlMore(FLIP, {a as int}, b, control, psi, k);
    } else {
      ExchangeControlled(control, a, b, psi, k);
    }
  }

  lemma ExchangeControlled(control: int, a: int, b: int, psi: State, k: set<int>)
    ensures After(Exchange({control}, a, b), psi)(k)
         == if control in k then After(Exchange({}, a, b), psi)(k) else psi(k)
  {
    hide After;
    if control in k {
      AfterSwap({control}, a, b, psi, k);
      AfterSwap({}, a, b, psi, k);
    } else {
      IdleAfter(Exchange({control}, a, b), psi, k);
    }
  }

  /** The basis state with the bits at two qubits exchanged. */
  ghost predicate IsExchanged(k: set<int>, l: set<int>, a: int, b: int) {
    (a in l <==> b in k) && (b in l <==> a in k) && forall q :: q != a && q != b ==> (q in l <==> q in k)
  }

  /** A swap moves every amplitude to the basis state with the two bits exchanged. */
  lemma SwapActs(trig: Trig, a: nat, b: nat, psi: State, k: set<int>, l: set<int>)
    requires IsExchanged(k, l, a, b)
    ensures var gate := Gate(Swap, [], [a, b]);
      OperatorOf(trig, gate).Some? && Acted(trig, gate, psi)(k) == psi(l)
  {
    hide After;
    AfterSwap({}, a, b, psi, k);
    var members := SwapMembers(k, a, b);
    forall q ensures q in members <==> q in l { }
    assert members == l;
    hide SwapMembers;
  }

  // ---------------------------------------------------------------- the Pauli gates and the phase gate

  function Flipped(k: set<int>, q: int): set<int> {
    if q in k then k - {q} else k + {q}
  }

  /** e^(i angle). */
  function Cis(trig: Trig, angle: real): Complex {
    Complex(trig.cos(angle), trig.sin(angle))
  }

  lemma DiagonalActs(z: Complex, w: Complex, q: int, psi: State, k: set<int>)
    ensures After(Matrix(Matrix2(z, ZERO, ZERO, w), {}, q), psi)(k) == Mul(if q in k then w else z, psi(k))
  {
    hide After, Mul;
    MatrixAt(Matrix2(z, ZERO, ZERO, w), {}, q, psi, k);
    MulZero(psi(k - {q}));
    MulZero(psi(k + {q}));
    if q in k { assert k + {q} == k; } else { assert k - {q} == k; }
    AddZero(Mul(z, psi(k)));
    AddZero(Mul(w, psi(k)));
  }

  lemma AntidiagonalActs(z: Complex, w: Complex, q: int, psi: State, k: set<int>)
    ensures After(Matrix(Matrix2(ZERO, z, w, ZERO), {}, q), psi)(k) == Mul(if q in k then w else z, psi(Flipped(k, q)))
  {
    hide After, Mul;
    MatrixAt(Matrix2(ZERO, z, w, ZERO), {}, q, psi, k);
    MulZero(psi(k - {q}));
    MulZero(psi(k + {q}));
    AddZero(Mul(z, psi(k + {q})));
    AddZero(Mul(w, psi(k - {q})));
  }

  /** X flips the bit, Z negates where it is 1, and Y is i times X after Z. */
  lemma PauliActs(trig: Trig, q: nat, psi: State, k: set<int>)
    ensures var x, y, z := Gate(X, [], [q]), Gate(Y, [], [q]), Gate(Z, [], [q]);
      && OperatorOf(trig, x).Some? && OperatorOf(trig, y).Some? && OperatorOf(trig, z).Some?
      && Acted(trig, x, psi)(k) == psi(Flipped(k, q))
      && Acted(trig, z, psi)(k) == (if (q as int) in k then Scale(-1.0, psi(k)) else psi(k))
      && Acted(trig, y, psi)(k) == Mul(Complex(0.0, 1.0), Acted(trig, x, Acted(trig, z, psi))(k))
  {
    hide After, Mul, RotationMatrix, PhaseMatrix;
    var minus := Complex(-1.0, 0.0);
    var z := After(Matrix(Diagonal(minus), {}, q), psi);
    AfterFlip(q, psi, k);
    AfterFlip(q, z, k);
    DiagonalActs(ONE, minus, q, psi, k);
    DiagonalActs(ONE, minus, q, psi, Flipped(k, q));
    AntidiagonalActs(Complex(0.0, -1.0), Complex(0.0, 1.0), q, psi, k);
    SignedUnits(psi(k));
    SignedUnits(psi(Flipped(k, q)));
  }

  lemma SignedUnits(z: Complex)
    ensures Mul(ONE, z) == z && Mul(Complex(-1.0, 0.0), z) == Scale(-1.0, z)
    ensures Mul(Complex(0.0, -1.0), z) == Mul(Complex(0.0, 1.0), Scale(-1.0, z))
  {
  }

  /** H adds the two amplitudes, or takes their difference where the bit is 1, over the square root of two. */
  lemma HadamardActs(trig: Trig, q: nat, psi: State, k: set<int>)
    ensures var h := Gate(H, [], [q]);
      && OperatorOf(trig, h).Some?
      && Acted(trig, h, psi)(k)
         == Scale(trig.half,
                  Add(psi(k - {q as int}), Scale(if (q as int) in k then -1.0 else 1.0, psi(k + {q as int}))))
  {
    hide After;
    MatrixAt(HMatrix(trig.half), {}, q, psi, k);
    hide RotationMatrix, PhaseMatrix;
    RealFactors(trig.half, psi(k - {q as int}), psi(k + {q as int}));
  }

  lemma RealFactors(h: real, z: Complex, w: Complex)
    ensures Add(Mul(Complex(h, 0.0), z), Mul(Complex(h, 0.0), w)) == Scale(h, Add(z, Scale(1.0, w)))
    ensures Add(Mul(Complex(h, 0.0), z), Mul(Complex(-h, 0.0), w)) == Scale(h, Add(z, Scale(-1.0, w)))
  {
  }

  /** The phase gate turns the amplitude where the bit is 1. */
  lemma PhaseActs(trig: Trig, angle: real, q: nat, psi: State, k: set<int>)
    ensures var p := Gate(P, [Bound(angle)], [q]);
      && OperatorOf(trig, p).Some?
      && Acted(trig, p, psi)(k) == (if (q as int) in k then Mul(Cis(trig, angle), psi(k)) else psi(k))
  {
    hide After, Mul;
    AnglesInOrder([Bound(angle)]);
    hide Angles;
    DiagonalActs(ONE, Cis(trig, angle), q, psi, k);
    SignedUnits(psi(k));
  }

  // ---------------------------------------------------------------- fixed phases

  /** What is known of an eighth of a turn. */
  predicate KnowsEighth(trig: Trig) {
    trig.cos(trig.pi / 4.0) == trig.half && trig.sin(trig.pi / 4.0) == trig.half
  }

  /** The angle of a gate that only turns a phase. */
  predicate IsPhaseOf(pi: real, name: GateName, angle: real) {
    || ((name == I || name == Id) && angle == 0.0)
    || (name == Z && angle == pi)
    || (name == S && angle == pi / 2.0) || (name == Sdg && angle == 0.0 - pi / 2.0)
    || (name == T && angle == pi / 4.0) || (name == Tdg && angle == 0.0 - pi / 4.0)
  }

  lemma QuarterTurn(trig: Trig)
    requires TrigLaws(trig) && KnowsEighth(trig)
    ensures trig.cos(trig.pi / 2.0) == 0.0 && trig.sin(trig.pi / 2.0) == 1.0
  {
    var eighth, h := trig.pi / 4.0, trig.half;
    assert eighth + eighth == trig.pi / 2.0;
    AngleAddition(trig, eighth, eighth);
    assert h * h - h * h == 0.0 && h * h + h * h == 1.0;
  }

  lemma NegativeAngle(trig: Trig, x: real)
    requires TrigLaws(trig) && trig.cos(x) * trig.cos(x) + trig.sin(x) * trig.sin(x) == 1.0
    ensures trig.cos(0.0 - x) == trig.cos(x) && trig.sin(0.0 - x) == 0.0 - trig.sin(x)
  {
    AngleAddition(trig, x, 0.0 - x);
    assert x + (0.0 - x) == 0.0;
    SolvePair(trig.cos(x), trig.sin(x), trig.cos(0.0 - x), trig.sin(0.0 - x));
  }

  /** The one pair that undoes a unit pair. */
  lemma SolvePair(c: real, s: real, x: real, y: real)
    requires c * c + s * s == 1.0 && CosOfSum(c, s, x, y) == 1.0 && SinOfSum(c, s, x, y) == 0.0
    ensures x == c && y == 0.0 - s
  {
    var u, v := c * x - s * y, s * x + c * y;
    assert c * u + s * v == (c * c + s * s) * x by { Expand(c, s, x, y); }
    assert c * v - s * u == (c * c + s * s) * y by { Expand(c, s, x, y); }
  }

  lemma Expand(c: real, s: real, x: real, y: real)
    ensures c * (c * x - s * y) + s * (s * x + c * y) == (c * c + s * s) * x
    ensures c * (s * x + c * y) - s * (c * x - s * y) == (c * c + s * s) * y
  {
  }

  /** Each of them is the phase gate at its angle. */
  lemma FixedPhases(trig: Trig, name: GateName, angle: real, q: nat)
    requires TrigLaws(trig) && KnowsEighth(trig) && IsPhaseOf(trig.pi, name, angle)
    ensures OperatorOf(trig, Gate(name, [], [q])).Some?
    ensures OperatorOf(trig, Gate(name, [], [q])) == OperatorOf(trig, Gate(P, [Bound(angle)], [q]))
  {
    QuarterTurn(trig);
    var h := trig.half;
    assert h * h + h * h == 1.0;
    NegativeAngle(trig, trig.pi / 4.0);
    NegativeAngle(trig, trig.pi / 2.0);
    AnglesInOrder([Bound(angle)]);
    hide Angles, CosOfSum, SinOfSum;
  }

  // ---------------------------------------------------------------- rotations and general gates

  /** A rotation about Z is the phase gate but for half its angle everywhere. */
  lemma TurnIsPhase(trig: Trig, angle: real, q: nat, psi: State, k: set<int>)
    requires TrigLaws(trig)
      && trig.cos(angle / 2.0) * trig.cos(angle / 2.0) + trig.sin(angle / 2.0) * trig.sin(angle / 2.0) == 1.0
    ensures var z, p := Gate(Rz, [Bound(angle)], [q]), Gate(P, [Bound(angle)], [q]);
      && OperatorOf(trig, z).Some? && OperatorOf(trig, p).Some?
      && Mul(Cis(trig, angle / 2.0), Acted(trig, z, psi)(k)) == Acted(trig, p, psi)(k)
  {
    hide After;
    AnglesInOrder([Bound(angle)]);
    hide Angles;
    var c, s := trig.cos(angle / 2.0), trig.sin(angle / 2.0);
    assert angle / 2.0 + angle / 2.0 == angle;
    AngleAddition(trig, angle / 2.0, angle / 2.0);
    DiagonalActs(Complex(c, -s), Complex(c, s), q, psi, k);
    PhaseActs(trig, angle, q, psi, k);
    UnitPair(c, s, psi(k));
  }

  lemma UnitPair(c: real, s: real, z: Complex)
    requires c * c + s * s == 1.0
    ensures Mul(Complex(c, s), Mul(Complex(c, -s), z)) == z
    ensures Mul(Complex(c, s), Mul(Complex(c, s), z)) == Mul(Complex(CosOfSum(c, s, c, s), SinOfSum(c, s, c, s)), z)
  {
    MulAssoc(Complex(c, s), Complex(c, -s), z);
    MulAssoc(Complex(c, s), Complex(c, s), z);
    UnitSquares(c, s);
    SignedUnits(z);
    hide Mul, CosOfSum, SinOfSum;
  }

  lemma UnitSquares(c: real, s: real)
    requires c * c + s * s == 1.0
    ensures Mul(Complex(c, s), Complex(c, -s)) == ONE
    ensures Mul(Complex(c, s), Complex(c, s)) == Complex(CosOfSum(c, s, c, s), SinOfSum(c, s, c, s))
  {
    assert c * (-s) + s * c == 0.0 && c * c - s * (-s) == 1.0;
  }

  /** Three gates on one qubit, the last one first. */
  function ThreeActed(trig: Trig, a: Gate, b: Gate, c: Gate, psi: State): State
    requires OperatorOf(trig, a).Some? && OperatorOf(trig, b).Some? && OperatorOf(trig, c).Some?
  {
    Acted(trig, a, Acted(trig, b, Acted(trig, c, psi)))
  }

  lemma ThreeProduct(a: Matrix2, b: Matrix2, c: Matrix2, q: int, psi: State, k: set<int>)
    ensures After(Matrix(Product(a, Product(b, c)), {}, q), psi)(k)
         == After(Matrix(a, {}, q), After(Matrix(b, {}, q), After(Matrix(c, {}, q), psi)))(k)
  {
    hide After, Product;
    var bc := After(Matrix(Product(b, c), {}, q), psi);
    var both := After(Matrix(b, {}, q), After(Matrix(c, {}, q), psi));
    ProductLaw(a, Product(b, c), {}, q, psi);
    ProductLaw(b, c, {}, q, psi);
    AfterSigned(Matrix(a, {}, q), 1.0, bc, both);
    SignedAt(1.0, After(Matrix(Product(a, Product(b, c)), {}, q), psi), After(Matrix(a, {}, q), bc), k);
    SignedAt(1.0, After(Matrix(a, {}, q), bc), After(Matrix(a, {}, q), both), k);
    ScaleOne(After(Matrix(Product(a, Product(b, c)), {}, q), psi)(k));
    ScaleOne(After(Matrix(a, {}, q), bc)(k));
  }

  /** The general gate: a phase, a rotation about Y, a phase. */
  lemma GeneralActs(trig: Trig, theta: real, phi: real, lambda: real, q: nat, psi: State, k: set<int>)
    requires TrigLaws(trig)
    ensures var u := Gate(U, [Bound(theta), Bound(phi), Bound(lambda)], [q]);
      var first, turn, last := Gate(P, [Bound(lambda)], [q]), Gate(Ry, [Bound(theta)], [q]), Gate(P, [Bound(phi)], [q]);
      && OperatorOf(trig, u).Some? && OperatorOf(trig, first).Some?
      && OperatorOf(trig, turn).Some? && OperatorOf(trig, last).Some?
      && Acted(trig, u, psi)(k) == ThreeActed(trig, last, turn, first, psi)(k)
  {
    hide After, Product, OperatorOf;
    ThreeAngles(theta, phi, lambda);
    ThreeAngles(phi, lambda, theta);
    ThreeAngles(lambda, theta, phi);
    hide Angles;
    AppliesMatrix(trig, U, [Bound(theta), Bound(phi), Bound(lambda)], [theta, phi, lambda], q);
    AppliesMatrix(trig, P, [Bound(phi)], [phi], q);
    AppliesMatrix(trig, P, [Bound(lambda)], [lambda], q);
    AppliesMatrix(trig, Ry, [Bound(theta)], [theta], q);
    GeneralProduct(trig, theta, phi, lambda);
    hide U3Matrix, PhaseMatrix, RotationMatrix, TrigLaws;
    ThreeProduct(PhaseMatrix(trig, phi), RotationMatrix(trig, Ry, theta), PhaseMatrix(trig, lambda), q, psi, k);
  }

  lemma ThreeAngles(x: real, y: real, z: real)
    ensures Angles([Bound(x), Bound(y), Bound(z)]) == Some([x, y, z])
    ensures Angles([Bound(x), Bound(y)]) == Some([x, y])
    ensures Angles([Bound(x)]) == Some([x])
  {
    AnglesInOrder([Bound(x), Bound(y), Bound(z)]);
    AnglesInOrder([Bound(x), Bound(y)]);
    AnglesInOrder([Bound(x)]);
    hide Angles;
    assert Angles([Bound(x), Bound(y), Bound(z)]).value == [x, y, z];
    assert Angles([Bound(x), Bound(y)]).value == [x, y];
    assert Angles([Bound(x)]).value == [x];
  }

  /** A single-qubit name applies its matrix. */
  lemma AppliesMatrix(trig: Trig, name: GateName, parameters: seq<Parameter>, angles: seq<real>, q: nat)
    requires OperandsOf(name) == Some(1) && Angles(parameters) == Some(angles)
    ensures OperatorOf(trig, Gate(name, parameters, [q])) == SomeMatrix(SingleQubitMatrix(trig, name, angles), {}, q)
  {
    hide Angles, SingleQubitMatrix;
  }

  function GeneralMatrix(
    c: real, s: real, cp: real, sp: real, cl: real, sl: real, ct: real, st: real): Matrix2
  {
    Matrix2(Complex(c, 0.0), Complex(-s * cl, -s * sl), Complex(s * cp, s * sp), Complex(c * ct, c * st))
  }

  lemma GeneralIsMatrix(trig: Trig, theta: real, phi: real, lambda: real)
    ensures U3Matrix(trig, theta, phi, lambda)
         == GeneralMatrix(trig.cos(theta / 2.0), trig.sin(theta / 2.0), trig.cos(phi), trig.sin(phi),
                          trig.cos(lambda), trig.sin(lambda), trig.cos(phi + lambda), trig.sin(phi + lambda))
  {
  }

  lemma GeneralProduct(trig: Trig, theta: real, phi: real, lambda: real)
    requires TrigLaws(trig)
    ensures Product(PhaseMatrix(trig, phi), Product(RotationMatrix(trig, Ry, theta), PhaseMatrix(trig, lambda)))
         == U3Matrix(trig, theta, phi, lambda)
  {
    AngleAddition(trig, phi, lambda);
    GeneralIsMatrix(trig, theta, phi, lambda);
    PhaseIsDiagonal(trig, phi);
    PhaseIsDiagonal(trig, lambda);
    TurnIsReal(trig, theta);
    hide TrigLaws, Product, CosOfSum, SinOfSum, GeneralMatrix, U3Matrix, PhaseMatrix, RotationMatrix;
    GeneralForm(trig.cos(theta / 2.0), trig.sin(theta / 2.0),
                trig.cos(phi), trig.sin(phi), trig.cos(lambda), trig.sin(lambda));
  }

  lemma PhaseIsDiagonal(trig: Trig, angle: real)
    ensures PhaseMatrix(trig, angle) == Diagonal(Complex(trig.cos(angle), trig.sin(angle)))
  {
  }

  lemma TurnIsReal(trig: Trig, theta: real)
    ensures RotationMatrix(trig, Ry, theta)
         == var c, s := trig.cos(theta / 2.0), trig.sin(theta / 2.0);
            Matrix2(Complex(c, 0.0), Complex(-s, 0.0), Complex(s, 0.0), Complex(c, 0.0))
  {
  }

  lemma GeneralForm(c: real, s: real, cp: real, sp: real, cl: real, sl: real)
    ensures Product(Diagonal(Complex(cp, sp)),
                    Product(Matrix2(Complex(c, 0.0), Complex(-s, 0.0), Complex(s, 0.0), Complex(c, 0.0)),
                            Diagonal(Complex(cl, sl))))
         == GeneralMatrix(c, s, cp, sp, cl, sl, CosOfSum(cp, sp, cl, sl), SinOfSum(cp, sp, cl, sl))
  {
    RealMatrixDiagonal(c, s, Complex(cl, sl));
    var inner := Matrix2(Complex(c, 0.0), Scale(-s, Complex(cl, sl)), Complex(s, 0.0), Scale(c, Complex(cl, sl)));
    DiagonalTimes(Complex(cp, sp), inner);
    hide Mul, Product;
    RealFactor(Complex(cp, sp), s, ONE);
    RealFactor(Complex(cp, sp), c, Complex(cl, sl));
    UnitProduct(cl, sl, cp, sp);
    UnitLaw(Complex(cp, sp));
    Symmetric(cp, sp, cl, sl);
    hide CosOfSum, SinOfSum;
  }

  lemma Symmetric(ca: real, sa: real, cb: real, sb: real)
    ensures CosOfSum(ca, sa, cb, sb) == CosOfSum(cb, sb, ca, sa) && SinOfSum(ca, sa, cb, sb) == SinOfSum(cb, sb, ca, sa)
  {
  }

  lemma UnitLaw(z: Complex)
    ensures Mul(z, ONE) == z
  {
  }

  lemma RealFactor(z: Complex, r: real, w: Complex)
    ensures Mul(z, Scale(r, w)) == Scale(r, Mul(z, w))
  {
    assert z.re * (r * w.re) == r * (z.re * w.re) && z.im * (r * w.im) == r * (z.im * w.im);
    assert z.re * (r * w.im) == r * (z.re * w.im) && z.im * (r * w.re) == r * (z.im * w.re);
  }

  lemma RealMatrixDiagonal(c: real, s: real, z: Complex)
    ensures Product(Matrix2(Complex(c, 0.0), Complex(-s, 0.0), Complex(s, 0.0), Complex(c, 0.0)), Diagonal(z))
         == Matrix2(Complex(c, 0.0), Scale(-s, z), Complex(s, 0.0), Scale(c, z))
  {
  }

  lemma DiagonalTimes(z: Complex, m: Matrix2)
    ensures Product(Diagonal(z), m) == Matrix2(m.m00, m.m01, Mul(z, m.m10), Mul(z, m.m11))
  {
    hide Mul;
    SignedUnits(m.m00);
    SignedUnits(m.m01);
    MulZero(m.m10);
    MulZero(m.m11);
    MulZero(m.m00);
    MulZero(m.m01);
    AddZero(m.m00);
    AddZero(m.m01);
    AddZero(Mul(z, m.m10));
    AddZero(Mul(z, m.m11));
  }

  /** Other names of the general gate and of the phase gate. */
  lemma OtherNames(trig: Trig, theta: real, phi: real, lambda: real, q: nat)
    ensures OperatorOf(trig, Gate(U3, [Bound(theta), Bound(phi), Bound(lambda)], [q]))
         == OperatorOf(trig, Gate(U, [Bound(theta), Bound(phi), Bound(lambda)], [q]))
    ensures theta == trig.pi / 2.0 ==>
      OperatorOf(trig, Gate(U2, [Bound(phi), Bound(lambda)], [q]))
      == OperatorOf(trig, Gate(U, [Bound(theta), Bound(phi), Bound(lambda)], [q]))
    ensures OperatorOf(trig, Gate(U1, [Bound(lambda)], [q])) == OperatorOf(trig, Gate(P, [Bound(lambda)], [q]))
  {
    ThreeAngles(theta, phi, lambda);
    ThreeAngles(phi, lambda, theta);
    ThreeAngles(lambda, phi, theta);
    hide Angles, OperatorOf;
    AppliesMatrix(trig, U3, [Bound(theta), Bound(phi), Bound(lambda)], [theta, phi, lambda], q);
    AppliesMatrix(trig, U, [Bound(theta), Bound(phi), Bound(lambda)], [theta, phi, lambda], q);
    AppliesMatrix(trig, U2, [Bound(phi), Bound(lambda)], [phi, lambda], q);
    AppliesMatrix(trig, U1, [Bound(lambda)], [lambda], q);
    AppliesMatrix(trig, P, [Bound(lambda)], [lambda], q);
    SameMatrices(trig, theta, phi, lambda);
    hide SingleQubitMatrix;
  }

  lemma SameMatrices(trig: Trig, theta: real, phi: real, lambda: real)
    ensures SingleQubitMatrix(trig, U3, [theta, phi, lambda]) == SingleQubitMatrix(trig, U, [theta, phi, lambda])
    ensures theta == trig.pi / 2.0 ==>
      SingleQubitMatrix(trig, U2, [phi, lambda]) == SingleQubitMatrix(trig, U, [theta, phi, lambda])
    ensures SingleQubitMatrix(trig, U1, [lambda]) == SingleQubitMatrix(trig, P, [lambda])
  {
    hide U3Matrix, RotationMatrix, PhaseMatrix;
  }

  /** A rotation about Y is one about X between the two quarter phases. */
  lemma TurnAboutY(trig: Trig, theta: real, q: nat, psi: State, k: set<int>)
    ensures var y, x := Gate(Ry, [Bound(theta)], [q]), Gate(Rx, [Bound(theta)], [q]);
      var s, sdg := Gate(S, [], [q]), Gate(Sdg, [], [q]);
      && OperatorOf(trig, y).Some? && OperatorOf(trig, x).Some?
      && OperatorOf(trig, s).Some? && OperatorOf(trig, sdg).Some?
      && Acted(trig, y, psi)(k) == ThreeActed(trig, s, x, sdg, psi)(k)
  {
    hide After, Product, OperatorOf;
    ThreeAngles(theta, theta, theta);
    AppliesMatrix(trig, Ry, [Bound(theta)], [theta], q);
    AppliesMatrix(trig, Rx, [Bound(theta)], [theta], q);
    AppliesMatrix(trig, S, [], [], q);
    AppliesMatrix(trig, Sdg, [], [], q);
    hide Angles;
    var c, s := trig.cos(theta / 2.0), trig.sin(theta / 2.0);
    QuarterConjugate(c, s);
    ThreeProduct(Diagonal(Complex(0.0, 1.0)), RotationForm(Rx, c, s), Diagonal(Complex(0.0, -1.0)), q, psi, k);
  }

  lemma QuarterConjugate(c: real, s: real)
    ensures Product(Diagonal(Complex(0.0, 1.0)), Product(RotationForm(Rx, c, s), Diagonal(Complex(0.0, -1.0))))
         == RotationForm(Ry, c, s)
  {
    TurnTimesBack(c, s);
    hide Product;
    var inner := Matrix2(Complex(c, 0.0), Complex(-s, 0.0), Complex(0.0, -s), Complex(0.0, -c));
    DiagonalTimes(Complex(0.0, 1.0), inner);
  }

  lemma TurnTimesBack(c: real, s: real)
    ensures Product(RotationForm(Rx, c, s), Diagonal(Complex(0.0, -1.0)))
         == Matrix2(Complex(c, 0.0), Complex(-s, 0.0), Complex(0.0, -s), Complex(0.0, -c))
  {
    DiagonalOnRight(RotationForm(Rx, c, s), Complex(0.0, -1.0));
    hide Product;
  }

  lemma DiagonalOnRight(m: Matrix2, z: Complex)
    ensures Product(m, Diagonal(z)) == Matrix2(m.m00, Mul(m.m01, z), m.m10, Mul(m.m11, z))
  {
    hide Mul;
    UnitLaw(m.m00);
    UnitLaw(m.m10);
    MulZero(m.m00);
    MulZero(m.m10);
    MulZero(m.m01);
    MulZero(m.m11);
    AddZero(m.m00);
    AddZero(m.m10);
    AddZero(Mul(m.m01, z));
    AddZero(Mul(m.m11, z));
  }

  /** A gate about X, and the one about Z that it is between two Hadamard gates. */
  predicate IsConjugate(name: GateName, other: GateName) {
    (name == Rx && other == Rz) || (name == Sx && other == S) || (name == Sxdg && other == Sdg)
  }

  lemma ConjugateActs(
    trig: Trig, name: GateName, other: GateName, parameters: seq<Parameter>, q: nat, psi: State, k: set<int>)
    requires TrigLaws(trig) && IsConjugate(name, other)
    ensures var x, z, h := Gate(name, parameters, [q]), Gate(other, parameters, [q]), Gate(H, [], [q]);
      && (OperatorOf(trig, x).Some? <==> OperatorOf(trig, z).Some?) && OperatorOf(trig, h).Some?
      && (OperatorOf(trig, x).Some? ==> Acted(trig, x, psi)(k) == ThreeActed(trig, h, z, h, psi)(k))
  {
    RootHalf(trig);
    hide After, Product, OperatorOf, SingleQubitMatrix;
    var h, angles := trig.half, Angles(parameters);
    HadamardMatrix(trig);
    AppliesMatrix(trig, H, [], [], q);
    SameAcceptance(trig, name, other, parameters, q);
    hide Angles;
    if angles.Some? {
      AppliesMatrix(trig, name, parameters, angles.value, q);
      AppliesMatrix(trig, other, parameters, angles.value, q);
      if SingleQubitMatrix(trig, other, angles.value).Some? {
        ConjugateMatrix(trig, name, other, angles.value);
        ThreeProduct(HMatrix(h), SingleQubitMatrix(trig, other, angles.value).value, HMatrix(h), q, psi, k);
      }
    }
  }

  lemma HadamardMatrix(trig: Trig)
    ensures SingleQubitMatrix(trig, H, []) == Some(HMatrix(trig.half))
  {
  }

  lemma ConjugateMatrix(trig: Trig, name: GateName, other: GateName, angles: seq<real>)
    requires TrigLaws(trig) && IsConjugate(name, other) && SingleQubitMatrix(trig, other, angles).Some?
    ensures SingleQubitMatrix(trig, name, angles)
         == Some(Product(HMatrix(trig.half), Product(SingleQubitMatrix(trig, other, angles).value, HMatrix(trig.half))))
  {
    RootHalf(trig);
    hide Product, TrigLaws, IsRootHalf, HMatrix;
    HalfMatrices(trig.half);
    if name == Rx { ConjugateRotations(trig.half, trig.cos(angles[0] / 2.0), trig.sin(angles[0] / 2.0)); }
  }

  lemma SameAcceptance(trig: Trig, name: GateName, other: GateName, parameters: seq<Parameter>, q: nat)
    requires IsConjugate(name, other)
    ensures OperatorOf(trig, Gate(name, parameters, [q])).Some?
      <==> OperatorOf(trig, Gate(other, parameters, [q])).Some?
    ensures OperatorOf(trig, Gate(name, parameters, [q])).Some? ==> Angles(parameters).Some?
  {
    hide OperatorOf;
    AnglesInOrder(parameters);
    AcceptedExactlyWhen(trig, Gate(name, parameters, [q]));
    AcceptedExactlyWhen(trig, Gate(other, parameters, [q]));
  }

  lemma HalfMatrices(h: real)
    requires IsRootHalf(h)
    ensures Product(HMatrix(h), Product(Diagonal(Complex(0.0, 1.0)), HMatrix(h)))
         == Matrix2(Complex(0.5, 0.5), Complex(0.5, -0.5), Complex(0.5, -0.5), Complex(0.5, 0.5))
    ensures Product(HMatrix(h), Product(Diagonal(Complex(0.0, -1.0)), HMatrix(h)))
         == Matrix2(Complex(0.5, -0.5), Complex(0.5, 0.5), Complex(0.5, 0.5), Complex(0.5, -0.5))
  {
    hide Product, IsRootHalf;
    ConjugateS(h);
    HDiagonalH(h, ONE, Complex(0.0, -1.0));
  }
}
