/** Every rule of the peephole optimizer keeps what a circuit computes, up to one global sign. */
module PeepholeSoundness {
  import opened Options
  import opened Circuits
  import opened ComplexNumbers
  import opened Semantics
  import opened OperatorLaws
  import opened GateLaws
  import opened PeepholeRules
  import opened Refinement

  // ---------------------------------------------------------------- what may be slid past

  function Members(qubits: seq<nat>): set<int> {
    set q | q in qubits :: q as int
  }

  lemma SupportWithin(trig: Trig, gate: Gate)
    requires OperatorOf(trig, gate).Some?
    ensures Support(OperatorOf(trig, gate).value) <= Members(gate.qubits)
  {
    hide SingleQubitMatrix, Angles;
    var qs := gate.qubits;
    forall i | 0 <= i < |qs| ensures qs[i] as int in Members(qs) {
      assert qs[i] in qs;
    }
  }

  lemma UntouchedSlides(trig: Trig, operation: Operation, gate: Gate)
    requires IsGate(operation) && !Touches(operation, gate.qubits)
    ensures Slides(trig, operation, gate)
  {
    hide OperatorOf, Support, Commute;
    var other := GateOf(operation);
    var p, q := OperatorOf(trig, other), OperatorOf(trig, gate);
    if p.Some? && q.Some? {
      SupportWithin(trig, other);
      SupportWithin(trig, gate);
      assert Members(other.qubits) !! Members(gate.qubits);
      DisjointCommute(p.value, q.value);
    }
  }

  /** A single-qubit gate acts as its 2x2 matrix. */
  lemma SingleOperator(trig: Trig, gate: Gate)
    requires |gate.qubits| == 1 && OperatorOf(trig, gate).Some?
    ensures Angles(gate.parameters).Some?
    ensures SingleQubitMatrix(trig, gate.name, Angles(gate.parameters).value).Some?
    ensures OperatorOf(trig, gate).value
         == Matrix(SingleQubitMatrix(trig, gate.name, Angles(gate.parameters).value).value, {}, gate.qubits[0])
  {
    hide SingleQubitMatrix, Angles;
  }

  lemma AxisMatrix(trig: Trig, name: GateName, angles: seq<real>)
    requires SingleQubitMatrix(trig, name, angles).Some?
    ensures RotationAxis(name) == Some(AxisZ) ==> IsDiagonal(SingleQubitMatrix(trig, name, angles).value)
    ensures RotationAxis(name) == Some(AxisX) ==> IsXForm(SingleQubitMatrix(trig, name, angles).value)
  {
  }

  lemma ControlledOperator(trig: Trig, gate: Gate)
    requires OperatorOf(trig, gate).Some? && gate.name in {Cx, Cnot, Cz}
    ensures |gate.qubits| == 2
    ensures OperatorOf(trig, gate).value
         == Matrix(if gate.name == Cz then Diagonal(Complex(-1.0, 0.0)) else FLIP, {gate.qubits[0]}, gate.qubits[1])
  {
    hide Angles, Diagonal;
    var angles := Angles(gate.parameters);
    if angles.Some? { FixedMatrices(trig, angles.value); }
  }

  lemma SingleName(trig: Trig, gate: Gate)
    requires OperatorOf(trig, gate).Some? && RotationAxis(gate.name).Some?
    ensures |gate.qubits| == 1
  {
    hide SingleQubitMatrix, Angles;
  }

  lemma DiagonalKeepsBits(m: Matrix2, controls: set<int>, target: int, x: int)
    requires IsDiagonal(m) || x != target || x in controls
    ensures KeepsBit(Matrix(m, controls, target), x)
  {
    hide Mul, Add;
    var q: Operator := Matrix(m, controls, target);
    forall k: set<int>, j: bool ensures Coefficient(q, k, j) == ZERO || (x in Source(q, k, j) <==> x in k) {
      if Active(q, k) && x == target { assert target !in controls; }
    }
  }

  /** The table of what a Z rotation slides past is right. */
  lemma SlidesOnZ(trig: Trig, operation: Operation, gate: Gate)
    requires |gate.qubits| == 1 && RotationAxis(gate.name) == Some(AxisZ)
    requires CommutesWithZOn(operation, gate.qubits[0])
    ensures Slides(trig, operation, gate)
  {
    hide OperatorOf, SingleQubitMatrix, IsDiagonal, KeepsBit, Commute;
    var x := gate.qubits[0];
    var other := GateOf(operation);
    var p, q := OperatorOf(trig, other), OperatorOf(trig, gate);
    if x !in other.qubits {
      UntouchedSlides(trig, operation, gate);
    } else if p.Some? && q.Some? {
      SingleOperator(trig, gate);
      AxisMatrix(trig, gate.name, Angles(gate.parameters).value);
      if other.name in {Cx, Cnot, Cz} {
        ControlledOperator(trig, other);
        assert IsDiagonal(Diagonal(Complex(-1.0, 0.0))) by { MinusOneDiagonal(); }
        DiagonalKeepsBits(p.value.m, p.value.controls, p.value.target, x);
      } else {
        SingleName(trig, other);
        SingleOperator(trig, other);
        AxisMatrix(trig, other.name, Angles(other.parameters).value);
        DiagonalKeepsBits(p.value.m, p.value.controls, p.value.target, x);
      }
      DiagonalCommute(q.value.m, x, p.value);
      CommuteSym(q.value, p.value);
    }
  }

  lemma MinusOneDiagonal()
    ensures IsDiagonal(Diagonal(Complex(-1.0, 0.0)))
  {
  }

  lemma CommuteSym(p: Operator, q: Operator)
    requires Commute(p, q)
    ensures Commute(q, p)
  {
    hide After, Signed;
    forall psi: State ensures Signed(1.0, After(q, After(p, psi)), After(p, After(q, psi))) {
      assert Signed(1.0, After(p, After(q, psi)), After(q, After(p, psi)));
      SignedSym(After(p, After(q, psi)), After(q, After(p, psi)));
    }
  }

  lemma XFormProduct(a: Matrix2, b: Matrix2)
    requires IsXForm(a) && IsXForm(b)
    ensures Product(a, b) == Product(b, a)
  {
    hide Mul;
    MulComm(a.m00, b.m00); MulComm(a.m01, b.m01); MulComm(a.m00, b.m01); MulComm(a.m01, b.m00);
    AddComm(Mul(a.m00, b.m00), Mul(a.m01, b.m01));
    AddComm(Mul(a.m00, b.m01), Mul(a.m01, b.m00));
  }

  lemma SameAxisCommute(a: Matrix2, b: Matrix2, x: int)
    requires Product(a, b) == Product(b, a)
    ensures Commute(Matrix(a, {}, x), Matrix(b, {}, x))
  {
    hide After, Signed, Product;
    var p: Operator := Matrix(a, {}, x);
    var q: Operator := Matrix(b, {}, x);
    forall psi: State ensures Signed(1.0, After(p, After(q, psi)), After(q, After(p, psi))) {
      ProductLaw(a, b, {}, x, psi);
      ProductLaw(b, a, {}, x, psi);
      var c: Operator := Matrix(Product(a, b), {}, x);
      SignedSym(After(c, psi), After(p, After(q, psi)));
      SignedTrans(1.0, 1.0, After(p, After(q, psi)), After(c, psi), After(q, After(p, psi)));
      assert 1.0 * 1.0 == 1.0;
    }
  }

  /** The table of what an X rotation slides past is right. */
  lemma SlidesOnX(trig: Trig, operation: Operation, gate: Gate)
    requires |gate.qubits| == 1 && RotationAxis(gate.name) == Some(AxisX)
    requires CommutesWithXOn(operation, gate.qubits[0])
    ensures Slides(trig, operation, gate)
  {
    hide OperatorOf, SingleQubitMatrix, IsXForm, Commute, Product;
    var x := gate.qubits[0];
    var other := GateOf(operation);
    var p, q := OperatorOf(trig, other), OperatorOf(trig, gate);
    if x !in other.qubits {
      UntouchedSlides(trig, operation, gate);
    } else if p.Some? && q.Some? {
      SingleOperator(trig, gate);
      AxisMatrix(trig, gate.name, Angles(gate.parameters).value);
      if other.name in {Cx, Cnot} {
        ControlledOperator(trig, other);
        XFormCommute(q.value.m, {other.qubits[0]}, x);
        CommuteSym(q.value, p.value);
      } else {
        SingleName(trig, other);
        SingleOperator(trig, other);
        AxisMatrix(trig, other.name, Angles(other.parameters).value);
        XFormProduct(p.value.m, q.value.m);
        SameAxisCommute(p.value.m, q.value.m, x);
      }
    }
  }

  lemma SlidesOnAxis(trig: Trig, operation: Operation, gate: Gate)
    requires |gate.qubits| == 1 && RotationAxis(gate.name).Some?
    requires CommutesOn(RotationAxis(gate.name).value, operation, gate.qubits[0])
    ensures Slides(trig, operation, gate)
  {
    hide Slides, CommutesWithXOn, CommutesWithZOn;
    match RotationAxis(gate.name).value {
      case AxisZ => SlidesOnZ(trig, operation, gate);
      case AxisX => SlidesOnX(trig, operation, gate);
    }
  }

  // ---------------------------------------------------------------- the rules on their own gates

  lemma IdentityLocal(trig: Trig, gate: Gate)
    requires gate.name in {Id, I}
    ensures Refines(trig, 1.0, [WithGate(gate)], [])
  {
    hide Signed, Refines, Angles;
    OneOperator(trig, gate);
    var op := OperatorOf(trig, gate);
    if op.Some? {
      assert op.value == Matrix(IDENTITY, {}, gate.qubits[0]);
      hide OperatorOf, Operators, Through, After;
      IdentityThrough(op.value, gate.qubits[0], 1.0);
    }
    assert Operators(trig, []) == Some([]);
    RefinesByOperators(trig, 1.0, [WithGate(gate)], []);
  }

  lemma IdentityThrough(op: Operator, x: nat, s: real)
    requires op == Matrix(IDENTITY, {}, x)
    ensures SameThrough(1.0, [op], [])
  {
    hide Signed, After, Through;
    forall psi: State ensures Signed(1.0, Through([op], psi), Through([], psi)) {
      ThroughSmall(op, op, op, psi);
      IdentityLaw({}, x, psi);
      SignedSym(psi, After(op, psi));
    }
  }

  function Rotated(gate: Gate, angle: real): Gate {
    gate.(parameters := [Bound(angle)])
  }

  lemma RotationOperator(trig: Trig, gate: Gate, angle: real)
    requires IsRotation(gate.name) && gate.parameters == [Bound(angle)]
    ensures OperatorOf(trig, gate)
         == if |gate.qubits| == 1 then Some(Matrix(RotationOf(trig, gate.name, angle), {}, gate.qubits[0])) else None
  {
    hide RotationMatrix, PhaseMatrix;
    assert Angles(gate.parameters) == Some([angle]) by {
      assert gate.parameters[..0] == [];
      assert [] + [angle] == [angle];
    }
    hide Angles;
  }

  lemma FuseLocal(trig: Trig, gate: Gate, other: Gate, a: real, b: real)
    requires TrigLaws(trig) && IsRotation(gate.name)
    requires gate.parameters == [Bound(a)] && other == Rotated(gate, b)
    ensures Refines(trig, 1.0, [WithGate(gate), WithGate(other)], [WithGate(Rotated(gate, a + b))])
  {
    var fused := Rotated(gate, a + b);
    RotationOperator(trig, gate, a);
    RotationOperator(trig, other, b);
    RotationOperator(trig, fused, a + b);
    Fusion(trig, gate.name, a, b);
    hide OperatorOf, Operators, Through, TrigLaws, RotationOf, Product, After, Signed, Refines, IsRotation;
    TwoOperators(trig, gate, other);
    OneOperator(trig, fused);
    if |gate.qubits| == 1 {
      ProductThrough(RotationOf(trig, gate.name, a), RotationOf(trig, gate.name, b), {}, gate.qubits[0]);
    }
    RefinesByOperators(trig, 1.0, [WithGate(gate), WithGate(other)], [WithGate(fused)]);
  }

  lemma ProductThrough(first: Matrix2, second: Matrix2, controls: set<int>, x: nat)
    ensures SameThrough(1.0, [Matrix(first, controls, x), Matrix(second, controls, x)],
                        [Matrix(Product(second, first), controls, x)])
  {
    hide Signed, After, Through, Product;
    var p: Operator := Matrix(first, controls, x);
    var q: Operator := Matrix(second, controls, x);
    var r: Operator := Matrix(Product(second, first), controls, x);
    forall psi: State ensures Signed(1.0, Through([p, q], psi), Through([r], psi)) {
      ThroughSmall(p, q, q, psi);
      ThroughSmall(r, r, r, psi);
      ProductLaw(second, first, controls, x, psi);
      SignedSym(After(r, psi), After(q, After(p, psi)));
    }
  }

  /** Normalising the angle of a rotation changes the state by a sign at most. */
  lemma WrapLocal(trig: Trig, gate: Gate, angle: real) returns (s: real)
    requires TrigLaws(trig) && IsRotation(gate.name) && gate.parameters == [Bound(angle)]
    ensures IsSign(s)
    ensures Refines(trig, s, [WithGate(gate)], [WithGate(Rotated(gate, NormalizeAngle(trig.pi, angle)))])
  {
    var wrapped := NormalizeAngle(trig.pi, angle);
    var after := Rotated(gate, wrapped);
    RotationOperator(trig, gate, angle);
    RotationOperator(trig, after, wrapped);
    s := WrapRotation(trig, gate.name, angle);
    hide OperatorOf, Operators, TrigLaws, NormalizeAngle, RotationOf, After, Signed, Refines, IsRotation, ScaleMatrix;
    OneOperator(trig, gate);
    OneOperator(trig, after);
    if |gate.qubits| == 1 {
      ScaledThrough(s, RotationOf(trig, gate.name, angle), gate.qubits[0]);
    }
    RefinesByOperators(trig, s, [WithGate(gate)], [WithGate(after)]);
  }

  lemma ScaledThrough(s: real, m: Matrix2, x: nat)
    requires IsSign(s)
    ensures SameThrough(s, [Matrix(m, {}, x)], [Matrix(ScaleMatrix(s, m), {}, x)])
  {
    hide Signed, After, Through, ScaleMatrix;
    var p: Operator := Matrix(m, {}, x);
    var q: Operator := Matrix(ScaleMatrix(s, m), {}, x);
    forall psi: State ensures Signed(s, Through([p], psi), Through([q], psi)) {
      ThroughSmall(p, p, p, psi);
      ThroughSmall(q, q, q, psi);
      ScaledMatrixLaw(s, m, x, psi);
    }
  }

  lemma NoRotationLocal(trig: Trig, gate: Gate)
    requires TrigLaws(trig) && IsRotation(gate.name) && gate.parameters == [Bound(0.0)]
    ensures Refines(trig, 1.0, [WithGate(gate)], [])
  {
    RotationOperator(trig, gate, 0.0);
    ZeroRotation(trig, gate.name);
    assert Operators(trig, []) == Some([]);
    hide OperatorOf, Operators, TrigLaws, RotationOf, After, Signed, Refines, IsRotation;
    OneOperator(trig, gate);
    if |gate.qubits| == 1 {
      IdentityThrough(Matrix(IDENTITY, {}, gate.qubits[0]), gate.qubits[0], 1.0);
    }
    RefinesByOperators(trig, 1.0, [WithGate(gate)], []);
  }

  /** A rotation whose normalised angle is zero does nothing up to a sign. */
  lemma ZeroLocal(trig: Trig, gate: Gate, angle: real)
    requires TrigLaws(trig) && IsRotation(gate.name) && gate.parameters == [Bound(angle)]
    requires NormalizeAngle(trig.pi, angle) == 0.0
    ensures RefinesUpToPhase(trig, [WithGate(gate)], [])
  {
    var s := WrapLocal(trig, gate, angle);
    hide TrigLaws, NormalizeAngle, Refines, IsRotation;
    var still := Rotated(gate, 0.0);
    NoRotationLocal(trig, still);
    RefinesTrans(trig, s, 1.0, [WithGate(gate)], [WithGate(still)], []);
  }

  /** X, Y, Z or H, alone or controlled. */
  predicate IsBase(name: GateName, base: GateName) {
    && base in {X, Y, Z, H}
    && (name == base || (name in {Cx, Cnot, Cz, Cy} && base == BaseName(name)))
  }

  lemma AnglesIgnored(trig: Trig, name: GateName, angles: seq<real>)
    requires name in {X, Y, Z, H}
    ensures SingleQubitMatrix(trig, name, angles) == SingleQubitMatrix(trig, name, [])
  {
  }

  lemma NamedOperator(trig: Trig, gate: Gate, base: GateName)
    requires OperatorOf(trig, gate).Some?
    requires IsBase(gate.name, base)
    ensures |gate.qubits| == if base == gate.name then 1 else 2
    ensures Angles(gate.parameters).Some?
    ensures SingleQubitMatrix(trig, base, Angles(gate.parameters).value).Some?
    ensures var m := SingleQubitMatrix(trig, base, Angles(gate.parameters).value).value;
      OperatorOf(trig, gate).value
      == if base == gate.name then Matrix(m, {}, gate.qubits[0]) else Matrix(m, {gate.qubits[0]}, gate.qubits[1])
  {
    hide SingleQubitMatrix, Angles;
  }

  /** The operator of a self-inverse gate, applied twice, is the identity; its parameters do not matter. */
  lemma SelfInverseTwice(trig: Trig, gate: Gate, other: Gate)
    requires TrigLaws(trig) && IsSelfInverse(gate.name) && other.name == gate.name && other.qubits == gate.qubits
    requires OperatorOf(trig, gate).Some? && OperatorOf(trig, other).Some?
    ensures OperatorOf(trig, other) == OperatorOf(trig, gate)
    ensures SameThrough(1.0, [OperatorOf(trig, gate).value, OperatorOf(trig, gate).value], [])
  {
    hide Angles, Product, SameThrough;
    if gate.name == Swap {
      hide TrigLaws, SingleQubitMatrix;
      SwapTwice(gate.qubits[0], gate.qubits[1]);
    } else if gate.name in {Id, I} {
      hide TrigLaws;
      UnitSquare();
      InverseThrough(IDENTITY, IDENTITY, {}, gate.qubits[0]);
    } else {
      var base := if gate.name in {X, Y, Z, H} then gate.name else BaseName(gate.name);
      SelfInverse(trig, base, []);
      hide OperatorOf, SingleQubitMatrix, TrigLaws;
      NamedOperator(trig, gate, base);
      NamedOperator(trig, other, base);
      AnglesIgnored(trig, base, Angles(gate.parameters).value);
      AnglesIgnored(trig, base, Angles(other.parameters).value);
      hide IsBase;
      var op := OperatorOf(trig, gate).value;
      InverseThrough(op.m, op.m, op.controls, op.target);
    }
  }

  lemma UnitSquare()
    ensures Product(IDENTITY, IDENTITY) == IDENTITY
  {
    hide Mul, Product;
    DiagonalProduct(ONE, ONE, ONE, ONE);
    MulOne(ONE);
  }

  lemma InverseThrough(first: Matrix2, second: Matrix2, controls: set<int>, x: int)
    requires Product(second, first) == IDENTITY
    ensures SameThrough(1.0, [Matrix(first, controls, x), Matrix(second, controls, x)], [])
  {
    hide Signed, After, Through, Product;
    var p: Operator := Matrix(first, controls, x);
    var q: Operator := Matrix(second, controls, x);
    var unit: Operator := Matrix(IDENTITY, controls, x);
    forall psi: State ensures Signed(1.0, Through([p, q], psi), Through([], psi)) {
      ThroughSmall(p, q, q, psi);
      ProductLaw(second, first, controls, x, psi);
      IdentityLaw(controls, x, psi);
      SignedTrans(1.0, 1.0, psi, After(unit, psi), After(q, After(p, psi)));
      assert 1.0 * 1.0 == 1.0;
      SignedSym(psi, After(q, After(p, psi)));
    }
  }

  lemma SwapTwice(a: int, b: int)
    ensures SameThrough(1.0, [Exchange({}, a, b), Exchange({}, a, b)], [])
  {
    hide After, Through, Scale;
    var p: Operator := Exchange({}, a, b);
    forall psi: State ensures Signed(1.0, Through([p, p], psi), Through([], psi)) {
      ThroughSmall(p, p, p, psi);
      forall k: set<int> ensures psi(k) == Scale(1.0, After(p, After(p, psi))(k)) {
        AfterSwap({}, a, b, After(p, psi), k);
        AfterSwap({}, a, b, psi, SwapMembers(k, a, b));
        assert SwapMembers(SwapMembers(k, a, b), a, b) == k;
        ScaleOne(psi(k));
      }
    }
  }

  lemma CancelLocal(trig: Trig, gate: Gate, other: Gate)
    requires TrigLaws(trig) && IsSelfInverse(gate.name) && other.name == gate.name && other.qubits == gate.qubits
    ensures Refines(trig, 1.0, [WithGate(gate), WithGate(other)], [])
  {
    TwoOperators(trig, gate, other);
    assert Operators(trig, []) == Some([]);
    if OperatorOf(trig, gate).Some? && OperatorOf(trig, other).Some? {
      SelfInverseTwice(trig, gate, other);
    }
    hide OperatorOf, Operators, TrigLaws, SameThrough, Refines;
    RefinesByOperators(trig, 1.0, [WithGate(gate), WithGate(other)], []);
  }

  lemma ThreeThrough(h: Matrix2, m: Matrix2, x: nat)
    ensures SameThrough(1.0, [Matrix(h, {}, x), Matrix(m, {}, x), Matrix(h, {}, x)],
                        [Matrix(Product(h, Product(m, h)), {}, x)])
  {
    hide Signed, After, Through, Product;
    var p: Operator := Matrix(h, {}, x);
    var q: Operator := Matrix(m, {}, x);
    var pair: Operator := Matrix(Product(m, h), {}, x);
    var all: Operator := Matrix(Product(h, Product(m, h)), {}, x);
    forall psi: State ensures Signed(1.0, Through([p, q, p], psi), Through([all], psi)) {
      ThroughSmall(p, q, p, psi);
      ThroughSmall(all, all, all, psi);
      ProductLaw(m, h, {}, x, psi);
      ProductLaw(h, Product(m, h), {}, x, psi);
      AfterSigned(p, 1.0, After(pair, psi), After(q, After(p, psi)));
      SignedTrans(1.0, 1.0, After(all, psi), After(p, After(pair, psi)), After(p, After(q, After(p, psi))));
      assert 1.0 * 1.0 == 1.0;
      SignedSym(After(all, psi), After(p, After(q, After(p, psi))));
    }
  }

  lemma ConjugateLocal(trig: Trig, opening: Gate, gate: Gate, closing: Gate)
    requires TrigLaws(trig) && opening.name == H && closing.name == H && Conjugate(gate.name).Some?
    requires |gate.qubits| == 1 && opening.qubits == gate.qubits && closing.qubits == gate.qubits
    ensures Refines(trig, 1.0, [WithGate(opening), WithGate(gate), WithGate(closing)],
                    [WithGate(gate.(name := Conjugate(gate.name).value))])
  {
    var flipped := gate.(name := Conjugate(gate.name).value);
    ThreeOperators(trig, opening, gate, closing);
    OneOperator(trig, flipped);
    hide Operators, SameThrough, Refines, Product, HMatrix, Angles;
    if OperatorOf(trig, opening).Some? && OperatorOf(trig, gate).Some? && OperatorOf(trig, closing).Some? {
      ConjugateOperators(trig, opening, gate, closing);
    }
    hide OperatorOf, TrigLaws;
    RefinesByOperators(trig, 1.0, [WithGate(opening), WithGate(gate), WithGate(closing)], [WithGate(flipped)]);
  }

  lemma ConjugateOperators(trig: Trig, opening: Gate, gate: Gate, closing: Gate)
    requires TrigLaws(trig) && opening.name == H && closing.name == H && Conjugate(gate.name).Some?
    requires |gate.qubits| == 1 && opening.qubits == gate.qubits && closing.qubits == gate.qubits
    requires OperatorOf(trig, opening).Some? && OperatorOf(trig, gate).Some? && OperatorOf(trig, closing).Some?
    ensures var flipped := gate.(name := Conjugate(gate.name).value);
      && OperatorOf(trig, flipped).Some?
      && SameThrough(1.0,
                     [OperatorOf(trig, opening).value, OperatorOf(trig, gate).value, OperatorOf(trig, closing).value],
                     [OperatorOf(trig, flipped).value])
  {
    hide Product, HMatrix, SameThrough;
    var angles := Angles(gate.parameters);
    SingleOperator(trig, opening);
    SingleOperator(trig, gate);
    SingleOperator(trig, closing);
    FixedMatrices(trig, Angles(opening.parameters).value);
    FixedMatrices(trig, Angles(closing.parameters).value);
    HadamardConjugation(trig, gate.name, angles.value);
    hide SingleQubitMatrix, Angles, TrigLaws;
    ThreeThrough(HMatrix(trig.half), SingleQubitMatrix(trig, gate.name, angles.value).value, gate.qubits[0]);
  }
}
