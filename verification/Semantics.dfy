/**
 * What the state-vector engine computes (src/engine/statevector.ts:63-204, 334-444), with a basis state written as
 * the set of qubits that are 1.
 *
 * Measurement is followed along one record of outcomes and without renormalising, so a final state is a branch and
 * its squared norm is the probability of that record.
 */
module Semantics {
  import opened ComplexNumbers
  import opened Circuits
  import opened Options

  type State = set<int> -> Complex

  /** [[m00, m01], [m10, m11]]. */
  datatype Matrix2 = Matrix2(m00: Complex, m01: Complex, m10: Complex, m11: Complex)

  /** The host's trigonometry and 1/sqrt(2), left abstract. */
  datatype Trig = Trig(cos: real -> real, sin: real -> real, pi: real, half: real)

  // ---------------------------------------------------------------- matrices by name

  function Angles(parameters: seq<Parameter>): Option<seq<real>> {
    if |parameters| == 0 then Some([])
    else
      var rest := Angles(parameters[..|parameters| - 1]);
      if rest.Some? && parameters[|parameters| - 1].Bound?
      then Some(rest.value + [parameters[|parameters| - 1].angle]) else None
  }

  function U3Matrix(trig: Trig, theta: real, phi: real, lambda: real): Matrix2 {
    var c, s := trig.cos(theta / 2.0), trig.sin(theta / 2.0);
    Matrix2(Complex(c, 0.0),
            Complex(-s * trig.cos(lambda), -s * trig.sin(lambda)),
            Complex(s * trig.cos(phi), s * trig.sin(phi)),
            Complex(c * trig.cos(phi + lambda), c * trig.sin(phi + lambda)))
  }

  function RotationMatrix(trig: Trig, name: GateName, theta: real): Matrix2
    requires name == Rx || name == Ry || name == Rz
  {
    var c, s := trig.cos(theta / 2.0), trig.sin(theta / 2.0);
    match name
    case Rx => Matrix2(Complex(c, 0.0), Complex(0.0, -s), Complex(0.0, -s), Complex(c, 0.0))
    case Ry => Matrix2(Complex(c, 0.0), Complex(-s, 0.0), Complex(s, 0.0), Complex(c, 0.0))
    case _ => Matrix2(Complex(c, -s), ZERO, ZERO, Complex(c, s))
  }

  function PhaseMatrix(trig: Trig, lambda: real): Matrix2 {
    Matrix2(ONE, ZERO, ZERO, Complex(trig.cos(lambda), trig.sin(lambda)))
  }

  function Diagonal(z: Complex): Matrix2 {
    Matrix2(ONE, ZERO, ZERO, z)
  }

  /** The 2x2 matrix of a single-qubit gate; an unknown name or a wrong parameter count is refused. */
  function SingleQubitMatrix(trig: Trig, name: GateName, angles: seq<real>): Option<Matrix2> {
    var h := trig.half;
    match name
    case Id => Some(Diagonal(ONE))
    case I => Some(Diagonal(ONE))
    case X => Some(Matrix2(ZERO, ONE, ONE, ZERO))
    case Y => Some(Matrix2(ZERO, Complex(0.0, -1.0), Complex(0.0, 1.0), ZERO))
    case Z => Some(Diagonal(Complex(-1.0, 0.0)))
    case H => Some(Matrix2(Complex(h, 0.0), Complex(h, 0.0), Complex(h, 0.0), Complex(-h, 0.0)))
    case S => Some(Diagonal(Complex(0.0, 1.0)))
    case Sdg => Some(Diagonal(Complex(0.0, -1.0)))
    case T => Some(Diagonal(Complex(h, h)))
    case Tdg => Some(Diagonal(Complex(h, -h)))
    case Sx => Some(Matrix2(Complex(0.5, 0.5), Complex(0.5, -0.5), Complex(0.5, -0.5), Complex(0.5, 0.5)))
    case Sxdg => Some(Matrix2(Complex(0.5, -0.5), Complex(0.5, 0.5), Complex(0.5, 0.5), Complex(0.5, -0.5)))
    case Rx => if |angles| == 1 then Some(RotationMatrix(trig, Rx, angles[0])) else None
    case Ry => if |angles| == 1 then Some(RotationMatrix(trig, Ry, angles[0])) else None
    case Rz => if |angles| == 1 then Some(RotationMatrix(trig, Rz, angles[0])) else None
    case P => if |angles| == 1 then Some(PhaseMatrix(trig, angles[0])) else None
    case U1 => if |angles| == 1 then Some(PhaseMatrix(trig, angles[0])) else None
    case U2 => if |angles| == 2 then Some(U3Matrix(trig, trig.pi / 2.0, angles[0], angles[1])) else None
    case U => if |angles| == 3 then Some(U3Matrix(trig, angles[0], angles[1], angles[2])) else None
    case U3 => if |angles| == 3 then Some(U3Matrix(trig, angles[0], angles[1], angles[2])) else None
    case _ => None
  }

  // ---------------------------------------------------------------- operators

  /**
   * The two shapes of operator the engine applies: a 2x2 matrix on a target where all controls are 1, or an exchange
   * of two qubits where all controls are 1.
   */
  datatype Operator =
    | Matrix(m: Matrix2, controls: set<int>, target: int)
    | Exchange(controls: set<int>, a: int, b: int)

  function Support(op: Operator): set<int> {
    match op
    case Matrix(_, controls, target) => controls + {target}
    case Exchange(controls, a, b) => controls + {a, b}
  }

  predicate Active(op: Operator, k: set<int>) {
    match op
    case Matrix(_, controls, target) => controls <= k - {target}
    case Exchange(controls, _, _) => controls <= k
  }

  function SwapMembers(k: set<int>, a: int, b: int): set<int> {
    if (a in k) == (b in k) then k
    else if a in k then k - {a} + {b}
    else k - {b} + {a}
  }

  const FLIP := Matrix2(ZERO, ONE, ONE, ZERO)

  function MatrixEntry(m: Matrix2, row: bool, column: bool): Complex {
    if row then (if column then m.m11 else m.m10) else if column then m.m01 else m.m00
  }

  /**
   * The amplitude at k after an operator is first * before(Source(op, k, false)) + second * before(Source(op, k,
   * true)).
   */
  function Coefficient(op: Operator, k: set<int>, second: bool): Complex {
    if op.Matrix? && Active(op, k) then MatrixEntry(op.m, op.target in k, second)
    else if second then ZERO else ONE
  }

  function Source(op: Operator, k: set<int>, second: bool): set<int> {
    if !Active(op, k) then k
    else match op
      case Matrix(_, _, target) => if second then k + {target} else k - {target}
      case Exchange(_, a, b) => SwapMembers(k, a, b)
  }

  function After(op: Operator, psi: State): State {
    (k: set<int>) => Add(Mul(Coefficient(op, k, false), psi(Source(op, k, false))),
                         Mul(Coefficient(op, k, true), psi(Source(op, k, true))))
  }

  // ---------------------------------------------------------------- what simple operators do to one amplitude

  lemma OnlyFirst(z: Complex, w: Complex)
    ensures Add(Mul(ONE, z), Mul(ZERO, w)) == z
  {
  }

  lemma AfterSwap(controls: set<int>, a: int, b: int, psi: State, k: set<int>)
    requires controls <= k
    ensures After(Exchange(controls, a, b), psi)(k) == psi(SwapMembers(k, a, b))
  {
    hide Mul, Add, SwapMembers;
    var op: Operator := Exchange(controls, a, b);
    assert Active(op, k);
    assert Coefficient(op, k, false) == ONE && Coefficient(op, k, true) == ZERO;
    assert Source(op, k, false) == SwapMembers(k, a, b) && Source(op, k, true) == SwapMembers(k, a, b);
    OnlyFirst(psi(SwapMembers(k, a, b)), psi(SwapMembers(k, a, b)));
  }

  lemma AfterFlip(q: int, psi: State, k: set<int>)
    ensures After(Matrix(FLIP, {}, q), psi)(k) == psi(if q in k then k - {q} else k + {q})
  {
    hide Mul, Add;
    var op: Operator := Matrix(FLIP, {}, q);
    assert Active(op, k);
    assert Source(op, k, false) == k - {q} && Source(op, k, true) == k + {q};
    assert Coefficient(op, k, false) == (if q in k then ONE else ZERO);
    assert Coefficient(op, k, true) == (if q in k then ZERO else ONE);
    OnlyFirst(psi(k - {q}), psi(k + {q}));
    OnlySecond(psi(k - {q}), psi(k + {q}));
  }

  lemma OnlySecond(z: Complex, w: Complex)
    ensures Add(Mul(ZERO, z), Mul(ONE, w)) == w
  {
  }

  lemma IdleAfter(op: Operator, psi: State, k: set<int>)
    requires !Active(op, k)
    ensures After(op, psi)(k) == psi(k)
  {
    hide Mul, Add;
    assert Coefficient(op, k, false) == ONE && Coefficient(op, k, true) == ZERO;
    assert Source(op, k, false) == k && Source(op, k, true) == k;
    OnlyFirst(psi(k), psi(k));
  }

  // ---------------------------------------------------------------- gates to operators

  predicate IsTwoQubitName(name: GateName) {
    name in {Cx, Cnot, Cz, Cy, Ch, Swap, Crx, Cry, Crz, Cp, Cu1}
  }

  /** The single-qubit gate a controlled gate applies; what is left over reads as a phase. */
  function BaseName(name: GateName): GateName {
    match name
    case Cx => X
    case Cnot => X
    case Cz => Z
    case Cy => Y
    case Ch => H
    case Crx => Rx
    case Cry => Ry
    case Crz => Rz
    case _ => P
  }

  function SomeMatrix(m: Option<Matrix2>, controls: set<int>, target: int): Option<Operator> {
    if m.Some? then Some(Matrix(m.value, controls, target)) else None
  }

  /**
   * Dispatch on name and operand count. A gate whose operand count does not fit its name is refused here; the source
   * reads past its operand list.
   */
  function OperatorOf(trig: Trig, gate: Gate): Option<Operator> {
    var angles := Angles(gate.parameters);
    var qs := gate.qubits;
    if angles.None? then None
    else if gate.name == Swap && |qs| == 2 then Some(Exchange({}, qs[0], qs[1]))
    else if gate.name in {Cswap, Fredkin} then
      if |qs| == 3 then Some(Exchange({qs[0]}, qs[1], qs[2])) else None
    else if gate.name in {Ccx, Toffoli} then
      if |qs| == 3 then SomeMatrix(SingleQubitMatrix(trig, X, []), {qs[0], qs[1]}, qs[2]) else None
    else if IsTwoQubitName(gate.name) then
      if |qs| == 2 then SomeMatrix(SingleQubitMatrix(trig, BaseName(gate.name), angles.value), {qs[0]}, qs[1]) else None
    else if |qs| == 1 then SomeMatrix(SingleQubitMatrix(trig, gate.name, angles.value), {}, qs[0])
    else None
  }

  // ---------------------------------------------------------------- execution

  /** A branch of an execution: amplitudes, classical bits, and how many outcomes have been drawn. */
  datatype World = World(state: State, clbits: nat -> bool, draws: nat)

  function Project(psi: State, qubit: int, outcome: bool): State {
    (k: set<int>) => if (qubit in k) == outcome then psi(k) else ZERO
  }

  function WithBit(clbits: nat -> bool, at: nat, value: bool): nat -> bool {
    (j: nat) => if j == at then value else clbits(j)
  }

  function RegisterValue(register: seq<nat>, clbits: nat -> bool): nat {
    if |register| == 0 then 0
    else (if clbits(register[0]) then 1 else 0) + 2 * RegisterValue(register[1..], clbits)
  }

  /** Whether a condition holds; testing a bit the register does not have is refused. */
  function Holds(condition: Condition, clbits: nat -> bool): Option<bool> {
    match condition.bit
    case None => Some(RegisterValue(condition.register, clbits) == condition.equals)
    case Some(i) =>
      if i < |condition.register|
      then Some((if clbits(condition.register[i]) then 1 else 0) == condition.equals) else None
  }

  function StepSimple(trig: Trig, outcome: nat -> bool, simple: Simple, w: World): Option<World> {
    match simple
    case Apply(gate) =>
      var op := OperatorOf(trig, gate);
      if op.Some? then Some(w.(state := After(op.value, w.state))) else None
    case Measure(qubit, clbit) =>
      Some(World(Project(w.state, qubit, outcome(w.draws)), WithBit(w.clbits, clbit, outcome(w.draws)), w.draws + 1))
    case Reset(qubit) =>
      var projected := Project(w.state, qubit, outcome(w.draws));
      Some(w.(state := if outcome(w.draws) then After(Matrix(FLIP, {}, qubit), projected) else projected,
              draws := w.draws + 1))
    case Barrier(_) => Some(w)
  }

  function Step(trig: Trig, outcome: nat -> bool, operation: Operation, w: World): Option<World> {
    match operation
    case Plain(simple) => StepSimple(trig, outcome, simple, w)
    case Conditional(condition, body) =>
      var holds := Holds(condition, w.clbits);
      if holds.None? then None
      else if holds.value then StepSimple(trig, outcome, body, w)
      else Some(w)
  }

  /** A whole circuit along one record of measurement outcomes; nothing when an operation is refused. */
  function Run(trig: Trig, outcome: nat -> bool, operations: seq<Operation>, w: World): Option<World>
    decreases |operations|
  {
    if |operations| == 0 then Some(w)
    else
      var next := Step(trig, outcome, operations[0], w);
      if next.None? then None else Run(trig, outcome, operations[1..], next.value)
  }

  /** |0...0>. */
  function ZeroState(): State {
    (k: set<int>) => if k == {} then ONE else ZERO
  }

  function InitialWorld(): World {
    World(ZeroState(), (j: nat) => false, 0)
  }

  lemma {:induction false} RunConcat(
    trig: Trig, outcome: nat -> bool, first: seq<Operation>, second: seq<Operation>, w: World)
    ensures Run(trig, outcome, first + second, w)
         == var mid := Run(trig, outcome, first, w);
            if mid.None? then None else Run(trig, outcome, second, mid.value)
    decreases |first|
  {
    hide Step;
    if |first| == 0 {
      assert first + second == second;
    } else {
      assert (first + second)[1..] == first[1..] + second;
      var next := Step(trig, outcome, first[0], w);
      if next.Some? { RunConcat(trig, outcome, first[1..], second, next.value); }
    }
  }

  lemma RunOne(trig: Trig, outcome: nat -> bool, operation: Operation, w: World)
    ensures Run(trig, outcome, [operation], w) == Step(trig, outcome, operation, w)
  {
    hide Step;
    var next := Step(trig, outcome, operation, w);
    if next.Some? {
      assert Run(trig, outcome, [operation][1..], next.value) == Some(next.value);
    }
  }

  lemma RunPair(trig: Trig, outcome: nat -> bool, p: Operation, q: Operation, w: World)
    ensures Run(trig, outcome, [p, q], w)
         == var next := Step(trig, outcome, p, w);
            if next.None? then None else Step(trig, outcome, q, next.value)
  {
    hide Step;
    assert [p, q][1..] == [q] && [q][1..] == [];
    var next := Step(trig, outcome, p, w);
    if next.Some? {
      var last := Step(trig, outcome, q, next.value);
      if last.Some? { assert Run(trig, outcome, [], last.value) == last; }
    }
  }
}
