/** Unitary folding, C -> C (C^-1 C)^n (src/engine/mitigation.ts:80-144). */
module Folding {
  import opened Options
  import opened Circuits
  import opened ComplexNumbers
  import opened Semantics
  import opened OperatorLaws
  import opened GateLaws
  import opened PeepholeRules
  import opened Refinement
  import opened Phases
  import opened PeepholeSoundness
  import Reordering

  // ---------------------------------------------------------------- inverses

  function RenamedInverse(name: GateName): Option<GateName> {
    match name
    case S => Some(Sdg)
    case Sdg => Some(S)
    case T => Some(Tdg)
    case Tdg => Some(T)
    case Sx => Some(Sxdg)
    case Sxdg => Some(Sx)
    case _ => None
  }

  predicate NegatesParameter(name: GateName) {
    name in {Rx, Ry, Rz, P, U1, Crx, Cry, Crz, Cp, Cu1}
  }

  predicate FoldsOntoItself(name: GateName) {
    name in {X, Y, Z, H, Cx, Cnot, Cz, Cy, Swap, Id, I, Ccx, Toffoli}
  }

  function NegatedParameter(parameter: Parameter): Parameter {
    match parameter
    case Bound(angle) => Bound(-angle)
    case Free(name) => Free("-(" + name + ")")
  }

  function NegatedParameters(parameters: seq<Parameter>): (negated: seq<Parameter>)
    ensures |negated| == |parameters|
    ensures forall i :: 0 <= i < |negated| ==> negated[i] == NegatedParameter(parameters[i])
  {
    seq(|parameters|, i requires 0 <= i < |parameters| => NegatedParameter(parameters[i]))
  }

  /** The inverse gate, or nothing when the gate is rejected rather than approximated. */
  function InvertGate(gate: Gate): Option<Gate> {
    if FoldsOntoItself(gate.name) && |gate.parameters| == 0 then Some(gate)
    else if RenamedInverse(gate.name).Some? then Some(gate.(name := RenamedInverse(gate.name).value))
    else if NegatesParameter(gate.name) then Some(gate.(parameters := NegatedParameters(gate.parameters)))
    else None
  }

  // ---------------------------------------------------------------- the inverse undoes the gate

  lemma RenamedSquares(trig: Trig, name: GateName)
    requires TrigLaws(trig) && RenamedInverse(name).Some?
    ensures SingleQubitMatrix(trig, name, []).Some? && SingleQubitMatrix(trig, RenamedInverse(name).value, []).Some?
    ensures Product(SingleQubitMatrix(trig, RenamedInverse(name).value, []).value,
                    SingleQubitMatrix(trig, name, []).value)
         == IDENTITY
  {
    RootHalf(trig);
    hide TrigLaws, Product, SingleQubitMatrix;
    if name in {Sx, Sxdg} { RenamedRoots(trig, name); } else { RenamedPhases(trig, name); }
  }

  lemma RenamedRoots(trig: Trig, name: GateName)
    requires name in {Sx, Sxdg}
    ensures SingleQubitMatrix(trig, name, []).Some? && SingleQubitMatrix(trig, RenamedInverse(name).value, []).Some?
    ensures Product(SingleQubitMatrix(trig, RenamedInverse(name).value, []).value,
                    SingleQubitMatrix(trig, name, []).value)
         == IDENTITY
  {
    hide Product, SingleQubitMatrix;
    RootMatrices(trig);
    RootFlips();
  }

  lemma RenamedPhases(trig: Trig, name: GateName)
    requires IsRootHalf(trig.half) && name in {S, Sdg, T, Tdg}
    ensures SingleQubitMatrix(trig, name, []).Some? && SingleQubitMatrix(trig, RenamedInverse(name).value, []).Some?
    ensures Product(SingleQubitMatrix(trig, RenamedInverse(name).value, []).value,
                    SingleQubitMatrix(trig, name, []).value)
         == IDENTITY
  {
    hide Product, IsRootHalf, SingleQubitMatrix, PhaseOf, Diagonal, Mul;
    var inverse := RenamedInverse(name).value;
    FixedPhaseMatrix(trig, name);
    FixedPhaseMatrix(trig, inverse);
    PhaseInverse(trig.half, name);
    UnitPhases(PhaseOf(trig.half, inverse), PhaseOf(trig.half, name));
  }

  lemma RootMatrices(trig: Trig)
    ensures SingleQubitMatrix(trig, Sx, []) == Some(ROOT_FLIP)
      && SingleQubitMatrix(trig, Sxdg, []) == Some(ROOT_FLIP_BACK)
  {
  }

  lemma PhaseInverse(h: real, name: GateName)
    requires IsRootHalf(h) && name in {S, Sdg, T, Tdg}
    ensures Mul(PhaseOf(h, RenamedInverse(name).value), PhaseOf(h, name)) == ONE
  {
    hide Mul;
    match name {
      case S => ImaginaryUnits(1.0);
      case Sdg => ImaginaryUnits(1.0);
      case T => HalfPhases(h);
      case Tdg => HalfPhases(h);
    }
  }

  lemma ImaginaryUnits(r: real)
    ensures Mul(Complex(0.0, -r), Complex(0.0, r)) == Complex(r * r, 0.0)
    ensures Mul(Complex(0.0, r), Complex(0.0, -r)) == Complex(r * r, 0.0)
  {
    assert -r * r == -(r * r) && r * -r == -(r * r);
  }

  lemma HalfPhases(h: real)
    requires IsRootHalf(h)
    ensures Mul(Complex(h, -h), Complex(h, h)) == ONE && Mul(Complex(h, h), Complex(h, -h)) == ONE
  {
    assert h * -h == -(h * h) && -h * h == -(h * h);
  }

  /** Opposite phases. */
  lemma UnitPhases(z: Complex, w: Complex)
    requires Mul(z, w) == ONE
    ensures Product(Diagonal(z), Diagonal(w)) == IDENTITY
  {
    hide Product, Mul;
    DiagonalProduct(ONE, z, ONE, w);
    MulOne(ONE);
  }

  const ROOT_FLIP := Matrix2(Complex(0.5, 0.5), Complex(0.5, -0.5), Complex(0.5, -0.5), Complex(0.5, 0.5))
  const ROOT_FLIP_BACK := Matrix2(Complex(0.5, -0.5), Complex(0.5, 0.5), Complex(0.5, 0.5), Complex(0.5, -0.5))

  lemma RootFlips()
    ensures Product(ROOT_FLIP, ROOT_FLIP_BACK) == IDENTITY
    ensures Product(ROOT_FLIP_BACK, ROOT_FLIP) == IDENTITY
  {
    hide Mul, Add;
    HalfProducts(0.5);
    HalfSums();
  }

  lemma HalfProducts(r: real)
    ensures var z, w := Complex(r, r), Complex(r, -r);
      && Mul(z, w) == Complex(2.0 * (r * r), 0.0) && Mul(w, z) == Complex(2.0 * (r * r), 0.0)
      && Mul(z, z) == Complex(0.0, 2.0 * (r * r)) && Mul(w, w) == Complex(0.0, -2.0 * (r * r))
  {
    assert -r * -r == r * r && r * -r == -(r * r) && -r * r == -(r * r);
  }

  lemma HalfSums()
    ensures Add(Complex(0.5, 0.0), Complex(0.5, 0.0)) == ONE
    ensures Add(Complex(0.0, 0.5), Complex(0.0, -0.5)) == ZERO
    ensures Add(Complex(0.0, -0.5), Complex(0.0, 0.5)) == ZERO
  {
  }

  /** Negated angles: the matrices of opposite rotations multiply to the identity. */
  lemma OppositeRotations(trig: Trig, name: GateName, angle: real, opposite: real)
    requires TrigLaws(trig) && IsRotation(name) && angle + opposite == 0.0
    ensures Product(RotationOf(trig, name, opposite), RotationOf(trig, name, angle)) == IDENTITY
  {
    hide TrigLaws, Product, RotationOf;
    Fusion(trig, name, angle, opposite);
    ZeroRotation(trig, name);
    SameRotationAngle(trig, name, angle + opposite, 0.0);
  }

  lemma SameRotationAngle(trig: Trig, name: GateName, x: real, y: real)
    requires IsRotation(name) && x == y
    ensures RotationOf(trig, name, x) == RotationOf(trig, name, y)
  {
  }

  lemma NegatedAngles(parameters: seq<Parameter>)
    requires Angles(parameters).Some?
    ensures Angles(NegatedParameters(parameters)).Some?
    ensures |Angles(parameters).value| == |parameters| == |Angles(NegatedParameters(parameters)).value|
    ensures forall i :: 0 <= i < |parameters| ==>
              Angles(NegatedParameters(parameters)).value[i] == -Angles(parameters).value[i]
  {
    if |parameters| > 0 {
      var n := |parameters| - 1;
      NegatedAngles(parameters[..n]);
      assert NegatedParameters(parameters)[..n] == NegatedParameters(parameters[..n]);
    }
  }

  /** A gate that is not a swap acts as one matrix, chosen by its base name and angles. */
  function BaseOf(gate: Gate): GateName {
    if gate.name in {Ccx, Toffoli} then X
    else if IsTwoQubitName(gate.name) then BaseName(gate.name)
    else gate.name
  }

  function TargetOf(gate: Gate): nat
    requires |gate.qubits| > 0
  {
    gate.qubits[|gate.qubits| - 1]
  }

  function ControlsOf(gate: Gate): set<int>
    requires |gate.qubits| > 0
  {
    if gate.name in {Ccx, Toffoli} && |gate.qubits| == 3 then {gate.qubits[0], gate.qubits[1]}
    else if IsTwoQubitName(gate.name) then {gate.qubits[0]}
    else {}
  }

  lemma MatrixGate(trig: Trig, gate: Gate)
    requires OperatorOf(trig, gate).Some? && gate.name !in {Swap, Cswap, Fredkin}
    ensures |gate.qubits| > 0 && Angles(gate.parameters).Some?
    ensures var angles := if gate.name in {Ccx, Toffoli} then [] else Angles(gate.parameters).value;
      && SingleQubitMatrix(trig, BaseOf(gate), angles).Some?
      && OperatorOf(trig, gate).value
         == Matrix(SingleQubitMatrix(trig, BaseOf(gate), angles).value, ControlsOf(gate), TargetOf(gate))
  {
    hide SingleQubitMatrix, Angles;
  }

  /** A gate with the shape of one the engine accepts is accepted when it has a matrix. */
  lemma SameShape(trig: Trig, gate: Gate, other: Gate)
    requires OperatorOf(trig, gate).Some? && other.qubits == gate.qubits
    requires gate.name !in {Swap, Cswap, Fredkin, Ccx, Toffoli} && other.name !in {Swap, Cswap, Fredkin, Ccx, Toffoli}
    requires IsTwoQubitName(gate.name) == IsTwoQubitName(other.name)
    requires Angles(other.parameters).Some?
    requires SingleQubitMatrix(trig, BaseOf(other), Angles(other.parameters).value).Some?
    ensures OperatorOf(trig, other).Some?
  {
    hide SingleQubitMatrix, Angles;
  }

  lemma RenamedIgnoresAngles(trig: Trig, name: GateName, angles: seq<real>)
    requires RenamedInverse(name).Some?
    ensures SingleQubitMatrix(trig, name, angles) == SingleQubitMatrix(trig, name, [])
    ensures SingleQubitMatrix(trig, RenamedInverse(name).value, angles)
         == SingleQubitMatrix(trig, RenamedInverse(name).value, [])
  {
  }

  lemma RenamedUndoes(trig: Trig, gate: Gate)
    requires TrigLaws(trig) && RenamedInverse(gate.name).Some? && OperatorOf(trig, gate).Some?
    ensures var other := gate.(name := RenamedInverse(gate.name).value);
      && OperatorOf(trig, other).Some?
      && SameThrough(1.0, [OperatorOf(trig, gate).value, OperatorOf(trig, other).value], [])
  {
    hide OperatorOf, SingleQubitMatrix, Angles, SameThrough, Product;
    var other := gate.(name := RenamedInverse(gate.name).value);
    MatrixGate(trig, gate);
    RenamedIgnoresAngles(trig, gate.name, Angles(gate.parameters).value);
    RenamedSquares(trig, gate.name);
    hide TrigLaws;
    SameShape(trig, gate, other);
    MatrixGate(trig, other);
    InverseThrough(OperatorOf(trig, gate).value.m, OperatorOf(trig, other).value.m, {}, TargetOf(gate));
  }

  lemma RotationMatrixOf(trig: Trig, name: GateName, angles: seq<real>)
    requires IsRotation(name)
    ensures SingleQubitMatrix(trig, name, angles).Some? <==> |angles| == 1
    ensures |angles| == 1 ==> SingleQubitMatrix(trig, name, angles).value == RotationOf(trig, name, angles[0])
  {
    hide RotationMatrix, PhaseMatrix;
    if |angles| == 1 { assert angles == [angles[0]]; }
  }

  lemma NegatedBase(gate: Gate)
    requires NegatesParameter(gate.name)
    ensures IsRotation(BaseOf(gate)) && gate.name !in {Swap, Cswap, Fredkin, Ccx, Toffoli}
  {
  }

  lemma NegatedUndoes(trig: Trig, gate: Gate)
    requires TrigLaws(trig) && NegatesParameter(gate.name) && OperatorOf(trig, gate).Some?
    ensures var other := gate.(parameters := NegatedParameters(gate.parameters));
      && OperatorOf(trig, other).Some?
      && SameThrough(1.0, [OperatorOf(trig, gate).value, OperatorOf(trig, other).value], [])
  {
    NegatedBase(gate);
    hide OperatorOf, SingleQubitMatrix, Angles, SameThrough, Product, NegatesParameter, IsRotation, RotationOf,
         NegatedParameters;
    var other := gate.(parameters := NegatedParameters(gate.parameters));
    MatrixGate(trig, gate);
    NegatedAngles(gate.parameters);
    var angles, opposite := Angles(gate.parameters).value, Angles(other.parameters).value;
    var base := BaseOf(gate);
    RotationMatrixOf(trig, base, angles);
    RotationMatrixOf(trig, base, opposite);
    OppositeRotations(trig, base, angles[0], opposite[0]);
    hide TrigLaws, IDENTITY;
    SameShape(trig, gate, other);
    MatrixGate(trig, other);
    InverseThrough(OperatorOf(trig, gate).value.m, OperatorOf(trig, other).value.m, ControlsOf(gate), TargetOf(gate));
  }

  lemma ItselfUndoes(trig: Trig, gate: Gate)
    requires TrigLaws(trig) && FoldsOntoItself(gate.name) && OperatorOf(trig, gate).Some?
    ensures SameThrough(1.0, [OperatorOf(trig, gate).value, OperatorOf(trig, gate).value], [])
  {
    hide OperatorOf, SingleQubitMatrix, Angles, SameThrough, Product;
    if gate.name in {Ccx, Toffoli} {
      MatrixGate(trig, gate);
      SelfInverse(trig, X, []);
      var m := OperatorOf(trig, gate).value.m;
      InverseThrough(m, m, ControlsOf(gate), TargetOf(gate));
    } else {
      SelfInverseTwice(trig, gate, gate);
    }
  }

  /** Which gates have an inverse: those with a name for it, rotations, and the listed ones without parameters. */
  lemma InvertibleExactlyWhen(gate: Gate)
    ensures InvertGate(gate).Some?
       <==> || gate.name in {S, Sdg, T, Tdg, Sx, Sxdg}
            || gate.name in {Rx, Ry, Rz, P, U1, Crx, Cry, Crz, Cp, Cu1}
            || (gate.name in {X, Y, Z, H, Cx, Cnot, Cz, Cy, Swap, Id, I, Ccx, Toffoli} && gate.parameters == [])
  {
  }

  /** A parameter without a value is negated in its text, in parentheses. */
  lemma TextIsNegated(name: GateName, text: string, qubits: seq<nat>)
    requires name in {Rx, Ry, Rz, P, U1, Crx, Cry, Crz, Cp, Cu1}
    ensures InvertGate(Gate(name, [Free(text)], qubits)) == Some(Gate(name, [Free("-(" + text + ")")], qubits))
  {
    assert NegatedParameters([Free(text)]) == [Free("-(" + text + ")")];
  }

  /** The inverse has an inverse, which is the gate again if all its parameters have values. */
  lemma InverseTwice(gate: Gate)
    requires InvertGate(gate).Some? && forall i :: 0 <= i < |gate.parameters| ==> gate.parameters[i].Bound?
    ensures InvertGate(InvertGate(gate).value) == Some(gate)
  {
    var inverse := InvertGate(gate).value;
    assert |inverse.parameters| == |gate.parameters|;
    if NegatesParameter(gate.name) {
      forall i | 0 <= i < |gate.parameters|
        ensures NegatedParameters(NegatedParameters(gate.parameters))[i] == gate.parameters[i]
      {
        assert gate.parameters[i] == Bound(gate.parameters[i].angle);
      }
      assert NegatedParameters(NegatedParameters(gate.parameters)) == gate.parameters;
    }
  }

  /** Whatever gate has an inverse here, the inverse undoes it. */
  lemma InverseUndoes(trig: Trig, gate: Gate)
    requires TrigLaws(trig) && InvertGate(gate).Some? && OperatorOf(trig, gate).Some?
    ensures OperatorOf(trig, InvertGate(gate).value).Some?
    ensures SameThrough(1.0, [OperatorOf(trig, gate).value, OperatorOf(trig, InvertGate(gate).value).value], [])
  {
    hide OperatorOf, SameThrough, TrigLaws;
    if FoldsOntoItself(gate.name) && |gate.parameters| == 0 {
      ItselfUndoes(trig, gate);
    } else if RenamedInverse(gate.name).Some? {
      RenamedUndoes(trig, gate);
    } else {
      NegatedUndoes(trig, gate);
    }
  }

  // ---------------------------------------------------------------- folding a circuit

  /** The gates of a circuit, in order. */
  function GatesOf(operations: seq<Operation>): (gates: seq<Operation>)
    ensures AllGates(gates)
  {
    if |operations| == 0 then []
    else
      var last := operations[|operations| - 1];
      GatesOf(operations[..|operations| - 1]) + (if IsGate(last) then [last] else [])
  }

  /** The inverse of a list of gates: every inverse, in reverse order. */
  function Inverses(gates: seq<Operation>): (inverse: Option<seq<Operation>>)
    requires AllGates(gates)
    ensures inverse.Some? ==> AllGates(inverse.value) && |inverse.value| == |gates|
  {
    if |gates| == 0 then Some([])
    else
      var last := InvertGate(GateOf(gates[|gates| - 1]));
      var rest := Inverses(gates[..|gates| - 1]);
      if last.None? || rest.None? then None else Some([WithGate(last.value)] + rest.value)
  }

  /** C (C^-1 C)^n. */
  function Repeated(gates: seq<Operation>, inverse: seq<Operation>, n: nat): seq<Operation> {
    if n == 0 then gates else Repeated(gates, inverse, n - 1) + inverse + gates
  }

  predicate IsFoldable(operations: seq<Operation>, scale: int) {
    scale >= 1 && scale % 2 == 1 && (scale == 1 || Inverses(GatesOf(operations)).Some?)
  }

  function Folded(operations: seq<Operation>, scale: int): seq<Operation>
    requires IsFoldable(operations, scale)
  {
    if scale == 1 then operations
    else Repeated(GatesOf(operations), Inverses(GatesOf(operations)).value, (scale - 1) / 2) + NonGates(operations)
  }

  /** Sorts out the gates, inverts them, and strings the copies together. */
  method FoldCircuit(operations: seq<Operation>, scale: int) returns (folded: Option<seq<Operation>>)
    ensures folded.Some? <==> IsFoldable(operations, scale)
    ensures folded.Some? ==> folded.value == Folded(operations, scale)
  {
    hide IsGate, InvertGate;
    if scale < 1 || scale % 2 == 0 { return None; }
    if scale == 1 { return Some(operations); }
    var gates: seq<Operation> := [];
    var tail: seq<Operation> := [];
    for i := 0 to |operations|
      invariant gates == GatesOf(operations[..i]) && tail == NonGates(operations[..i])
    {
      assert operations[..i + 1][..i] == operations[..i];
      if IsGate(operations[i]) {
        gates := gates + [operations[i]];
      } else {
        tail := tail + [operations[i]];
      }
    }
    assert operations[..|operations|] == operations;
    var inverse := Inverses(gates);
    if inverse.None? { return None; }
    var copies := gates;
    var repeats := (scale - 1) / 2;
    for index := 0 to repeats
      invariant copies == Repeated(gates, inverse.value, index)
    {
      copies := copies + inverse.value + gates;
    }
    return Some(copies + tail);
  }

  lemma {:induction false} InversesExist(gates: seq<Operation>)
    requires AllGates(gates)
    ensures Inverses(gates).Some? <==> forall k :: 0 <= k < |gates| ==> InvertGate(GateOf(gates[k])).Some?
    decreases |gates|
  {
    hide InvertGate;
    if |gates| > 0 { InversesExist(gates[..|gates| - 1]); }
  }

  lemma {:induction false} GatesAreThose(operations: seq<Operation>, operation: Operation)
    ensures operation in GatesOf(operations) <==> operation in operations && IsGate(operation)
    decreases |operations|
  {
    if |operations| > 0 {
      GatesAreThose(operations[..|operations| - 1], operation);
      assert operation in operations
        <==> operation in operations[..|operations| - 1] || operation == operations[|operations| - 1];
    }
  }

  /** A circuit can be folded to an odd scale exactly when each of its gates has an inverse; to 1 always. */
  lemma FoldableExactlyWhen(operations: seq<Operation>, scale: int)
    ensures IsFoldable(operations, scale)
       <==> && scale >= 1 && scale % 2 == 1
            && (scale == 1
                || forall gate: Gate :: Plain(Apply(gate)) in operations ==> InvertGate(gate).Some?)
  {
    hide InvertGate;
    var gates := GatesOf(operations);
    InversesExist(gates);
    forall operation: Operation ensures operation in gates <==> operation in operations && IsGate(operation) {
      GatesAreThose(operations, operation);
    }
    if forall gate: Gate :: Plain(Apply(gate)) in operations ==> InvertGate(gate).Some? {
      forall k | 0 <= k < |gates| ensures InvertGate(GateOf(gates[k])).Some? {
        assert gates[k] in gates && gates[k] == Plain(Apply(GateOf(gates[k])));
      }
    }
    if forall k :: 0 <= k < |gates| ==> InvertGate(GateOf(gates[k])).Some? {
      forall gate: Gate | Plain(Apply(gate)) in operations ensures InvertGate(gate).Some? {
        assert Plain(Apply(gate)) in gates;
      }
    }
  }

  lemma {:induction false} RepeatedLength(gates: seq<Operation>, inverse: seq<Operation>, n: nat)
    requires |inverse| == |gates|
    ensures |Repeated(gates, inverse, n)| == (2 * n + 1) * |gates|
  {
    if n > 0 {
      RepeatedLength(gates, inverse, n - 1);
      assert (2 * n + 1) * |gates| == (2 * n - 1) * |gates| + 2 * |gates|;
    }
  }

  lemma ScaledLength(gates: seq<Operation>, inverse: seq<Operation>, n: nat, scale: int, count: nat)
    requires |inverse| == |gates| == count && scale == 2 * n + 1
    ensures |Repeated(gates, inverse, n)| == scale * count
  {
    RepeatedLength(gates, inverse, n);
  }

  lemma {:induction false} Partition(operations: seq<Operation>)
    ensures |GatesOf(operations)| + |NonGates(operations)| == |operations|
  {
    if |operations| > 0 { Partition(operations[..|operations| - 1]); }
  }

  lemma {:induction false} AllGatesKeepNothing(gates: seq<Operation>)
    requires AllGates(gates)
    ensures NonGates(gates) == []
  {
    if |gates| > 0 { AllGatesKeepNothing(gates[..|gates| - 1]); }
  }

  lemma {:induction false} RepeatedAllGates(gates: seq<Operation>, inverse: seq<Operation>, n: nat)
    requires AllGates(gates) && AllGates(inverse)
    ensures AllGates(Repeated(gates, inverse, n))
  {
    if n > 0 { RepeatedAllGates(gates, inverse, n - 1); }
  }

  lemma {:induction false} NonGatesStay(operations: seq<Operation>)
    ensures NonGates(NonGates(operations)) == NonGates(operations)
  {
    if |operations| > 0 {
      var n := |operations| - 1;
      NonGatesStay(operations[..n]);
      var tail := if IsGate(operations[n]) then [] else [operations[n]];
      NonGatesConcat(NonGates(operations[..n]), tail);
      if !IsGate(operations[n]) { assert NonGates(tail) == tail by { assert tail[..0] == []; } }
    }
  }

  /** Folding by an odd scale multiplies the gate count by it and leaves the other operations in order. */
  lemma FoldScales(operations: seq<Operation>, scale: int)
    requires IsFoldable(operations, scale)
    ensures GateCount(Folded(operations, scale)) == scale * GateCount(operations)
    ensures NonGates(Folded(operations, scale)) == NonGates(operations)
  {
    if scale != 1 {
      hide IsGate, NonGates, GatesOf, Inverses, Repeated;
      var gates, n := GatesOf(operations), (scale - 1) / 2;
      var inverse := Inverses(gates).value;
      var copies, tail := Repeated(gates, inverse, n), NonGates(operations);
      ScaledLength(gates, inverse, n, scale, GateCount(operations)) by { Partition(operations); }
      Partition(operations);
      RepeatedAllGates(gates, inverse, n);
      AllGatesKeepNothing(copies);
      NonGatesStay(operations);
      NonGatesConcat(copies, tail);
      assert [] + tail == tail;
    }
  }

  // ---------------------------------------------------------------- folding keeps the meaning

  /** A list of gates followed by the inverse list does nothing. */
  lemma {:induction false} InversesUndo(trig: Trig, gates: seq<Operation>)
    requires TrigLaws(trig) && AllGates(gates) && Inverses(gates).Some? && Operators(trig, gates).Some?
    ensures Operators(trig, Inverses(gates).value).Some?
    ensures SameThrough(1.0, Operators(trig, gates).value + Operators(trig, Inverses(gates).value).value, [])
    decreases |gates|
  {
    hide TrigLaws, OperatorOf, SameThrough, InvertGate;
    if |gates| == 0 {
      assert Operators(trig, gates).value + Operators(trig, Inverses(gates).value).value == [];
      SameRefl([]);
    } else {
      var n := |gates| - 1;
      var front, gate := gates[..n], GateOf(gates[n]);
      var inverse, rest := InvertGate(gate).value, Inverses(front).value;
      GateListEnd(gates);
      OperatorsConcat(trig, front, [WithGate(gate)]);
      OperatorsConcat(trig, [WithGate(inverse)], rest);
      OneOperator(trig, gate);
      OneOperator(trig, inverse);
      InversesUndo(trig, front);
      InverseUndoes(trig, gate);
      var p, q := OperatorOf(trig, gate).value, OperatorOf(trig, inverse).value;
      var first, last := Operators(trig, front).value, Operators(trig, rest).value;
      hide Operators, Inverses;
      DropInside(first, [p, q], last);
      SameTrans(first + [p, q] + last, first + last, []);
      assert (first + [p]) + ([q] + last) == first + [p, q] + last;
    }
  }

  lemma GateListEnd(gates: seq<Operation>)
    requires AllGates(gates) && |gates| > 0
    ensures gates == gates[..|gates| - 1] + [WithGate(GateOf(gates[|gates| - 1]))]
  {
  }

  lemma {:induction false} RepeatedSame(trig: Trig, gates: seq<Operation>, n: nat)
    requires TrigLaws(trig) && AllGates(gates) && Inverses(gates).Some? && Operators(trig, gates).Some?
    ensures AllGates(Repeated(gates, Inverses(gates).value, n))
    ensures Operators(trig, Repeated(gates, Inverses(gates).value, n)).Some?
    ensures SameThrough(1.0, Operators(trig, gates).value,
                        Operators(trig, Repeated(gates, Inverses(gates).value, n)).value)
    decreases n
  {
    hide TrigLaws, Operators, Inverses, SameThrough;
    var inverse := Inverses(gates).value;
    var p := Operators(trig, gates).value;
    RepeatedAllGates(gates, inverse, n);
    if n == 0 {
      SameRefl(p);
    } else {
      RepeatedSame(trig, gates, n - 1);
      InversesUndo(trig, gates);
      var fewer := Repeated(gates, inverse, n - 1);
      OperatorsConcat(trig, fewer, inverse);
      OperatorsConcat(trig, fewer + inverse, gates);
      var q, r := Operators(trig, inverse).value, Operators(trig, fewer).value;
      RightInverse(p, q, r);
    }
  }

  /** r is p, and q undoes p, so r q p is p. */
  lemma RightInverse(p: seq<Operator>, q: seq<Operator>, r: seq<Operator>)
    requires SameThrough(1.0, p, r) && SameThrough(1.0, p + q, [])
    ensures SameThrough(1.0, p, r + q + p)
  {
    hide Signed;
    forall psi: State ensures Signed(1.0, Through(p, psi), Through(r + q + p, psi)) {
      ThroughConcat(r + q, p, psi);
      ThroughConcat(r, q, psi);
      ThroughConcat(p, q, psi);
      ThroughKeepsEqual(q, Through(p, psi), Through(r, psi));
      assert Signed(1.0, Through(p + q, psi), Through([], psi));
      SignedSym(Through(p + q, psi), psi);
      EqualTrans(psi, Through(q, Through(p, psi)), Through(q, Through(r, psi)));
      ThroughKeepsEqual(p, psi, Through(q, Through(r, psi)));
    }
  }

  /** Everything that is not a gate may move behind each gate after it. */
  predicate GatesMayGoFirst(trig: Trig, operations: seq<Operation>) {
    forall i, j :: 0 <= i < j < |operations| && !IsGate(operations[i]) && IsGate(operations[j]) ==>
      Reordering.MovesBehind(trig, operations[i], GateOf(operations[j]))
  }

  /** Every operation kept aside stood somewhere in the circuit. */
  lemma {:induction false} NonGateFrom(operations: seq<Operation>, k: nat) returns (i: nat)
    requires k < |NonGates(operations)|
    ensures i < |operations| && operations[i] == NonGates(operations)[k] && !IsGate(operations[i])
  {
    var n := |operations| - 1;
    if k < |NonGates(operations[..n])| {
      i := NonGateFrom(operations[..n], k);
    } else {
      i := n;
    }
  }

  /** The last gate moves in front of everything kept aside so far. */
  lemma GatePassesTail(trig: Trig, operations: seq<Operation>)
    requires |operations| > 0 && IsGate(operations[|operations| - 1]) && GatesMayGoFirst(trig, operations)
    ensures var front, last := operations[..|operations| - 1], operations[|operations| - 1];
      Refines(trig, 1.0, GatesOf(front) + NonGates(front) + [last], GatesOf(front) + [last] + NonGates(front))
  {
    hide Refines, Reordering.MovesBehind;
    var front, last := operations[..|operations| - 1], operations[|operations| - 1];
    var gates, tail, gate := GatesOf(front), NonGates(front), GateOf(last);
    assert last == WithGate(gate);
    forall k | 0 <= k < |tail| ensures Reordering.MovesBehind(trig, tail[k], gate) {
      var m := NonGateFrom(front, k);
      assert operations[m] == front[m];
    }
    hide GatesMayGoFirst, GatesOf, NonGates;
    Reordering.ListMovesBehind(trig, tail, gate);
    RefinesInContext(trig, 1.0, gates, tail + [last], [last] + tail, []);
    assert gates + (tail + [last]) + [] == gates + tail + [last];
    assert gates + ([last] + tail) + [] == gates + [last] + tail;
  }

  /** Sorting the gates to the front keeps what the circuit computes. */
  lemma {:induction false} GatesGoFirst(trig: Trig, operations: seq<Operation>)
    requires GatesMayGoFirst(trig, operations)
    ensures Refines(trig, 1.0, operations, GatesOf(operations) + NonGates(operations))
    decreases |operations|
  {
    if |operations| == 0 {
      PhaseRefl(trig, operations);
      assert operations + [] == operations;
    } else {
      hide Refines, GatesMayGoFirst, GatesOf, NonGates, IsGate;
      var n := |operations| - 1;
      var front, last := operations[..n], operations[n];
      var gates, tail := GatesOf(front), NonGates(front);
      FrontMayGoFirst(trig, operations);
      GatesGoFirst(trig, front);
      WithLast(trig, front, gates + tail, last);
      assert front + [last] == operations;
      if IsGate(last) {
        GatePassesTail(trig, operations);
        RefinesTrans(trig, 1.0, 1.0, operations, gates + tail + [last], gates + [last] + tail);
        SortedGate(operations);
      } else {
        SortedOther(operations);
      }
    }
  }

  lemma WithLast(trig: Trig, first: seq<Operation>, second: seq<Operation>, last: Operation)
    requires Refines(trig, 1.0, first, second)
    ensures Refines(trig, 1.0, first + [last], second + [last])
  {
    hide Refines;
    RefinesInContext(trig, 1.0, [], first, second, [last]);
    assert [] + first + [last] == first + [last] && [] + second + [last] == second + [last];
  }

  lemma FrontMayGoFirst(trig: Trig, operations: seq<Operation>)
    requires |operations| > 0 && GatesMayGoFirst(trig, operations)
    ensures GatesMayGoFirst(trig, operations[..|operations| - 1])
  {
    hide Reordering.MovesBehind;
    var front := operations[..|operations| - 1];
    forall i, j | 0 <= i < j < |front| && !IsGate(front[i]) && IsGate(front[j])
      ensures Reordering.MovesBehind(trig, front[i], GateOf(front[j]))
    {
      assert front[i] == operations[i] && front[j] == operations[j];
    }
  }

  lemma SortedGate(operations: seq<Operation>)
    requires |operations| > 0 && IsGate(operations[|operations| - 1])
    ensures var front, last := operations[..|operations| - 1], operations[|operations| - 1];
      GatesOf(operations) + NonGates(operations) == (GatesOf(front) + [last]) + NonGates(front)
  {
    assert NonGates(operations) == NonGates(operations[..|operations| - 1]) + [];
  }

  lemma SortedOther(operations: seq<Operation>)
    requires |operations| > 0 && !IsGate(operations[|operations| - 1])
    ensures var front, last := operations[..|operations| - 1], operations[|operations| - 1];
      GatesOf(operations) + NonGates(operations) == GatesOf(front) + NonGates(front) + [last]
  {
    assert GatesOf(operations) == GatesOf(operations[..|operations| - 1]) + [];
  }

  /**
   * Folding keeps the meaning, exactly and not only up to a phase, of every circuit whose other operations may each
   * move behind the gates after them; by scale 1, of every circuit.
   */
  lemma FoldKeepsMeaning(trig: Trig, operations: seq<Operation>, scale: int)
    requires TrigLaws(trig) && IsFoldable(operations, scale)
    requires scale == 1 || GatesMayGoFirst(trig, operations)
    ensures Refines(trig, 1.0, operations, Folded(operations, scale))
  {
    hide TrigLaws, Refines, GatesOf, NonGates, Operators, Inverses, Repeated, GatesMayGoFirst;
    if scale == 1 {
      PhaseRefl(trig, operations);
    } else {
      var gates, tail, n := GatesOf(operations), NonGates(operations), (scale - 1) / 2;
      var copies := Repeated(gates, Inverses(gates).value, n);
      RepeatedAllGates(gates, Inverses(gates).value, n);
      if Operators(trig, gates).Some? { RepeatedSame(trig, gates, n); }
      RefinesByOperators(trig, 1.0, gates, copies);
      RefinesInContext(trig, 1.0, [], gates, copies, tail);
      assert [] + gates + tail == gates + tail && [] + copies + tail == copies + tail;
      GatesGoFirst(trig, operations);
      RefinesTrans(trig, 1.0, 1.0, operations, gates + tail, copies + tail);
    }
  }

  // ---------------------------------------------------------------- one measurement and one gate, exactly

  lemma SortedPair(m: Operation, gate: Gate)
    requires !IsGate(m)
    ensures GatesOf([m, WithGate(gate)]) == [WithGate(gate)] && NonGates([m, WithGate(gate)]) == [m]
  {
    var g := WithGate(gate);
    assert [m, g][..1] == [m] && [m][..0] == [];
    assert GatesOf([m][..0]) == [] && NonGates([m][..0]) == [];
    assert GatesOf([m]) == [];
    assert NonGates([m]) == [] + [m];
    assert [m, g][1] == g && IsGate(g);
  }

  lemma MeasuredGate(m: Operation, gate: Gate, scale: int)
    requires !IsGate(m) && scale > 1 && IsFoldable([m, WithGate(gate)], scale)
    ensures Inverses([WithGate(gate)]).Some?
    ensures Folded([m, WithGate(gate)], scale)
         == Repeated([WithGate(gate)], Inverses([WithGate(gate)]).value, (scale - 1) / 2) + [m]
  {
    hide Inverses, Repeated, InvertGate, GatesOf, NonGates;
    SortedPair(m, gate);
  }

  lemma RunsOfOrders(
    trig: Trig, q: nat, c: nat, gate: Gate, copies: seq<Operation>, psi: State, o: bool)
    requires OperatorOf(trig, gate).Some? && AllGates(copies) && Operators(trig, copies).Some?
    requires SameThrough(1.0, [OperatorOf(trig, gate).value], Operators(trig, copies).value)
    requires RefinesUpToFactors(trig, [Plain(Measure(q, c)), WithGate(gate)], copies + [Plain(Measure(q, c))])
    ensures var op := OperatorOf(trig, gate).value;
      Parallel(After(op, Project(psi, q, o)), Project(After(op, psi), q, o))
  {
    hide OperatorOf, Operators, After, Through, Signed, Parallel, Project, Run, Step, RefinesUpToFactors;
    var m := Plain(Measure(q, c));
    var outcome := (j: nat) => o;
    var w := World(psi, (j: nat) => false, 0);
    var op := OperatorOf(trig, gate).value;
    var through := Through(Operators(trig, copies).value, psi);
    RefinesFactorsAt(trig, [m, WithGate(gate)], copies + [m], outcome, w);
    RunPair(trig, outcome, m, WithGate(gate), w);
    MeasuredState(trig, outcome, q, c, w);
    Reordering.GateStep(trig, outcome, gate, Step(trig, outcome, m, w).value);
    RunConcat(trig, outcome, copies, [m], w);
    GatesRun(trig, outcome, copies, w);
    RunOne(trig, outcome, m, w.(state := through));
    MeasuredState(trig, outcome, q, c, w.(state := through));
    assert Parallel(After(op, Project(psi, q, o)), Project(through, q, o));
    ThroughSmall(op, op, op, psi);
    assert Signed(1.0, Through([op], psi), through);
    SignedSym(After(op, psi), through);
    ProjectSigned(q, o, 1.0, through, After(op, psi));
    SignedIsParallel(1.0, Project(through, q, o), Project(After(op, psi), q, o));
    ParallelTrans(After(op, Project(psi, q, o)), Project(through, q, o), Project(After(op, psi), q, o));
  }

  lemma MeasuredState(trig: Trig, outcome: nat -> bool, q: nat, c: nat, w: World)
    ensures var next := Step(trig, outcome, Plain(Measure(q, c)), w);
      next.Some? && next.value.state == Project(w.state, q, outcome(w.draws))
  {
  }

  lemma CopiesOfOne(trig: Trig, gate: Gate, n: nat)
    requires TrigLaws(trig) && Inverses([WithGate(gate)]).Some? && OperatorOf(trig, gate).Some?
    ensures var copies := Repeated([WithGate(gate)], Inverses([WithGate(gate)]).value, n);
      && AllGates(copies) && Operators(trig, copies).Some?
      && SameThrough(1.0, [OperatorOf(trig, gate).value], Operators(trig, copies).value)
  {
    hide TrigLaws, OperatorOf, Operators, Inverses, Repeated, SameThrough;
    OneOperator(trig, gate);
    RepeatedSame(trig, [WithGate(gate)], n);
  }

  lemma OrdersDiffer(trig: Trig, q: nat, c: nat, gate: Gate, scale: int)
    requires TrigLaws(trig) && scale > 1 && IsFoldable([Plain(Measure(q, c)), WithGate(gate)], scale)
    requires DistinctQubits(gate.qubits) && OperatorOf(trig, gate).Some?
    requires !Reordering.KeepsQubit(OperatorOf(trig, gate).value, q)
    ensures !RefinesUpToFactors(
      trig, [Plain(Measure(q, c)), WithGate(gate)], Folded([Plain(Measure(q, c)), WithGate(gate)], scale))
  {
    hide TrigLaws, OperatorOf, Operators, Inverses, Repeated, SameThrough, RefinesUpToFactors, Parallel, After,
         Project, Folded, IsFoldable, DistinctQubits;
    var m, op := Plain(Measure(q, c)), OperatorOf(trig, gate).value;
    MeasuredGate(m, gate, scale);
    CopiesOfOne(trig, gate, (scale - 1) / 2);
    Reordering.ApartGate(trig, gate);
    Reordering.OrderMatters(op, q);
    var psi: State, o: bool :| !Parallel(After(op, Project(psi, q, o)), Project(After(op, psi), q, o));
    var copies := Repeated([WithGate(gate)], Inverses([WithGate(gate)]).value, (scale - 1) / 2);
    if RefinesUpToFactors(trig, [m, WithGate(gate)], Folded([m, WithGate(gate)], scale)) {
      RunsOfOrders(trig, q, c, gate, copies, psi, o);
    }
  }

  /**
   * A measurement and then a gate the engine accepts: folding keeps the meaning up to a phase, or any nonzero number
   * for each branch, if and only if the gate does not touch the qubit, has it as a control, or is diagonal on it; and
   * then it keeps it exactly.
   */
  lemma MeasureThenGate(trig: Trig, q: nat, c: nat, gate: Gate, scale: int)
    requires TrigLaws(trig) && scale > 1 && IsFoldable([Plain(Measure(q, c)), WithGate(gate)], scale)
    requires DistinctQubits(gate.qubits) && OperatorOf(trig, gate).Some?
    ensures var operations := [Plain(Measure(q, c)), WithGate(gate)];
      && (RefinesUpToFactors(trig, operations, Folded(operations, scale))
          <==> Reordering.KeepsQubit(OperatorOf(trig, gate).value, q))
      && (Refines(trig, 1.0, operations, Folded(operations, scale))
          <==> Reordering.KeepsQubit(OperatorOf(trig, gate).value, q))
  {
    hide TrigLaws, OperatorOf, Refines, RefinesUpToFactors, Folded, Reordering.KeepsQubit, IsFoldable, DistinctQubits;
    var operations := [Plain(Measure(q, c)), WithGate(gate)];
    var folded := Folded(operations, scale);
    assert IsSign(1.0);
    if Reordering.KeepsQubit(OperatorOf(trig, gate).value, q) { FoldKeepsMeaning(trig, operations, scale); }
    if Refines(trig, 1.0, operations, folded) { SignIsFactor(trig, operations, folded); }
    if !Reordering.KeepsQubit(OperatorOf(trig, gate).value, q) { OrdersDiffer(trig, q, c, gate, scale); }
  }

  // ---------------------------------------------------------------- where folding moves a measurement

  const MEASURE_THEN_FLIP: seq<Operation> :=
    [Plain(Measure(0, 0)), Plain(Apply(Gate(X, [], [0])))]

  lemma RunFour(trig: Trig, outcome: nat -> bool, p: Operation, q: Operation, w: World)
    ensures Run(trig, outcome, [p, p, p, q], w)
         == var pair := Run(trig, outcome, [p, p], w);
            if pair.None? then None else Run(trig, outcome, [p, q], pair.value)
  {
    hide Run;
    assert [p, p, p, q] == [p, p] + [p, q];
    RunConcat(trig, outcome, [p, p], [p, q], w);
  }

  lemma InverseOfOne(gate: Gate)
    requires InvertGate(gate) == Some(gate)
    ensures Inverses([WithGate(gate)]) == Some([WithGate(gate)])
  {
    hide InvertGate;
    var gates := [WithGate(gate)];
    assert gates[..0] == [] && GateOf(gates[0]) == gate;
    assert Inverses(gates[..0]) == Some([]);
    assert [WithGate(gate)] + [] == [WithGate(gate)];
  }

  lemma OneRepetition(gates: seq<Operation>, inverse: seq<Operation>)
    ensures Repeated(gates, inverse, 1) == gates + inverse + gates
  {
    assert Repeated(gates, inverse, 0) == gates;
  }

  /** A gate that is its own inverse, measured before: three copies in front of the measurement. */
  lemma FoldedOnce(m: Operation, gate: Gate)
    requires !IsGate(m) && InvertGate(gate) == Some(gate)
    ensures IsFoldable([m, WithGate(gate)], 3)
    ensures var g := WithGate(gate); Folded([m, g], 3) == [g, g, g, m]
  {
    hide InvertGate, GatesOf, NonGates, Inverses, Repeated, WithGate;
    var g := WithGate(gate);
    SortedPair(m, gate);
    InverseOfOne(gate);
    OneRepetition([g], [g]);
  }

  lemma FlipIsItsInverse()
    ensures InvertGate(Gate(X, [], [0])) == Some(Gate(X, [], [0]))
  {
  }

  lemma FoldedFlip()
    ensures IsFoldable(MEASURE_THEN_FLIP, 3)
    ensures var x := MEASURE_THEN_FLIP[1]; Folded(MEASURE_THEN_FLIP, 3) == [x, x, x, MEASURE_THEN_FLIP[0]]
  {
    hide IsFoldable, Folded, InvertGate;
    FlipIsItsInverse();
    FoldedOnce(MEASURE_THEN_FLIP[0], Gate(X, [], [0]));
  }

  lemma FlipStep(trig: Trig, outcome: nat -> bool, w: World)
    ensures Step(trig, outcome, MEASURE_THEN_FLIP[1], w) == Some(w.(state := After(Matrix(FLIP, {}, 0), w.state)))
  {
  }

  lemma MeasureStep(trig: Trig, outcome: nat -> bool, w: World)
    ensures var next := Step(trig, outcome, MEASURE_THEN_FLIP[0], w);
      next.Some? && next.value.state == Project(w.state, 0, outcome(w.draws))
  {
  }

  lemma NeverFlipped(trig: Trig)
    ensures var x := MEASURE_THEN_FLIP[1];
      !RefinesUpToFactors(trig, MEASURE_THEN_FLIP, [x, x, x, MEASURE_THEN_FLIP[0]])
  {
    hide Run, RefinesUpToFactors, Parallel, After, Step;
    var m, x := MEASURE_THEN_FLIP[0], MEASURE_THEN_FLIP[1];
    var outcome := (j: nat) => false;
    var w := InitialWorld();
    RunPair(trig, outcome, m, x, w);
    RunFour(trig, outcome, x, m, w);
    RunPair(trig, outcome, x, x, w);
    MeasureStep(trig, outcome, w);
    var measured := Step(trig, outcome, m, w).value;
    FlipStep(trig, outcome, measured);
    FlipStep(trig, outcome, w);
    var once := Step(trig, outcome, x, w).value;
    FlipStep(trig, outcome, once);
    var twice := Step(trig, outcome, x, once).value;
    RunPair(trig, outcome, x, m, twice);
    FlipStep(trig, outcome, twice);
    var thrice := Step(trig, outcome, x, twice).value;
    MeasureStep(trig, outcome, thrice);
    var before := Run(trig, outcome, [m, x], w).value;
    var after := Run(trig, outcome, [x, x, x, m], w).value;
    AfterFlip(0, Project(w.state, 0, false), {0});
    assert {0} - {0} == {};
    assert before.state({0}) == ONE;
    assert after.state({0}) == ZERO;
    assert [m, x] == MEASURE_THEN_FLIP;
    if RefinesUpToFactors(trig, MEASURE_THEN_FLIP, [x, x, x, m]) {
      RefinesFactorsAt(trig, MEASURE_THEN_FLIP, [x, x, x, m], outcome, w);
      ParallelAt(before.state, after.state, {0});
    }
  }

  /**
   * A measurement followed by a gate is moved behind the folded gates: the circuit is a different one, under any phase
   * and any nonzero numbers.
   */
  lemma FoldMovesMeasurements(trig: Trig)
    ensures IsFoldable(MEASURE_THEN_FLIP, 3)
    ensures !RefinesUpToFactors(trig, MEASURE_THEN_FLIP, Folded(MEASURE_THEN_FLIP, 3))
  {
    hide RefinesUpToFactors, Folded;
    FoldedFlip();
    NeverFlipped(trig);
  }
}
