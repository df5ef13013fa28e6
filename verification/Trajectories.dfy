/**
 * One run of a circuit with measurements drawn at random (src/engine/statevector.ts:226-269, 349-444, 490-527), and
 * its relation to the branches of Semantics.
 */
module Trajectories {
  import opened Options
  import opened Circuits
  import opened ComplexNumbers
  import opened Semantics
  import opened OperatorLaws
  import opened GateLaws
  import opened GateUnitarity
  import opened RealPowers
  import opened Bits
  import opened Statevector
  import Sums = Summation

  // ---------------------------------------------------------------- what the engine does

  /** The outcome drawn for a qubit: 1 when the random number is below its probability. */
  ghost predicate Drawn(random: nat -> real, n: nat, w: World, qubit: nat) {
    random(w.draws) < Weight(n, Project(w.state, qubit, true))
  }

  /** The outcome record of an operation that measures nothing. */
  function NoOutcome(draw: nat): bool {
    false
  }

  ghost function RunBody(
    trig: Trig, sqrt: real -> real, random: nat -> real, n: nat, body: Simple, w: World): Option<World>
    requires IsSquareRoot(sqrt)
  {
    match body
    case Measure(qubit, clbit) =>
      var one := Drawn(random, n, w, qubit);
      var collapsed := Collapsed(sqrt, n, w.state, qubit, one);
      if collapsed.None? then None else Some(World(collapsed.value, WithBit(w.clbits, clbit, one), w.draws + 1))
    case Reset(qubit) =>
      var one := Drawn(random, n, w, qubit);
      var collapsed := Collapsed(sqrt, n, w.state, qubit, one);
      if collapsed.None? then None
      else Some(w.(state := if one then After(Matrix(FLIP, {}, qubit), collapsed.value) else collapsed.value,
                   draws := w.draws + 1))
    case _ => StepSimple(trig, NoOutcome, body, w)
  }

  ghost function RunOperation(
    trig: Trig, sqrt: real -> real, random: nat -> real, n: nat, operation: Operation, w: World): Option<World>
    requires IsSquareRoot(sqrt)
  {
    match operation
    case Plain(body) => RunBody(trig, sqrt, random, n, body, w)
    case Conditional(condition, body) =>
      var holds := Holds(condition, w.clbits);
      if holds.None? then None
      else if holds.value then RunBody(trig, sqrt, random, n, body, w)
      else Some(w)
  }

  /** A whole run; nothing when an operation is refused. */
  ghost function Trajectory(
    trig: Trig, sqrt: real -> real, random: nat -> real, n: nat, operations: seq<Operation>, w: World): Option<World>
    requires IsSquareRoot(sqrt)
    decreases |operations|
  {
    if |operations| == 0 then Some(w)
    else
      var next := RunOperation(trig, sqrt, random, n, operations[0], w);
      if next.None? then None else Trajectory(trig, sqrt, random, n, operations[1..], next.value)
  }

  // ---------------------------------------------------------------- the loop on arrays

  predicate InRange(body: Simple, n: nat, clbits: nat) {
    match body
    case Apply(gate) => DistinctQubits(gate.qubits) && forall i :: 0 <= i < |gate.qubits| ==> gate.qubits[i] < n
    case Measure(qubit, clbit) => qubit < n && clbit < clbits
    case Reset(qubit) => qubit < n
    case Barrier(_) => true
  }

  predicate OperationInRange(operation: Operation, n: nat, clbits: nat) {
    && InRange(BodyOf(operation), n, clbits)
    && (operation.Conditional? ==>
          forall i :: 0 <= i < |operation.condition.register| ==> operation.condition.register[i] < clbits)
  }

  predicate AllInRange(operations: seq<Operation>, n: nat, clbits: nat) {
    forall k :: 0 <= k < |operations| ==> OperationInRange(operations[k], n, clbits)
  }

  predicate AreBits(clbits: seq<bool>, bits: nat -> bool) {
    forall i: nat :: i < |clbits| ==> clbits[i] == bits(i)
  }

  lemma {:induction false} RegisterGrows(register: seq<nat>, bits: nat -> bool, k: nat)
    requires k < |register|
    ensures RegisterValue(register[..k + 1], bits)
         == RegisterValue(register[..k], bits) + if bits(register[k]) then Pow2(k) else 0
    decreases k
  {
    var more, fewer := register[..k + 1], register[..k];
    if k == 0 {
      assert more[1..] == [];
    } else {
      RegisterGrows(register[1..], bits, k - 1);
      assert more[1..] == register[1..][..k] && fewer[1..] == register[1..][..k - 1];
    }
  }

  /** The number a register holds, bit by bit. */
  method ValueOf(register: seq<nat>, clbits: seq<bool>, ghost bits: nat -> bool) returns (value: nat)
    requires AreBits(clbits, bits) && forall i :: 0 <= i < |register| ==> register[i] < |clbits|
    ensures value == RegisterValue(register, bits)
  {
    hide RegisterValue;
    value := 0;
    NothingYet(bits);
    for k := 0 to |register|
      invariant value == RegisterValue(register[..k], bits)
    {
      RegisterGrows(register, bits, k);
      if clbits[register[k]] {
        value := value + Pow2(k);
      }
    }
    assert register[..|register|] == register;
  }

  lemma NothingYet(bits: nat -> bool)
    ensures RegisterValue([], bits) == 0
  {
  }

  method TestCondition(condition: Condition, clbits: seq<bool>, ghost bits: nat -> bool) returns (holds: Option<bool>)
    requires AreBits(clbits, bits)
    requires forall i :: 0 <= i < |condition.register| ==> condition.register[i] < |clbits|
    ensures holds == Holds(condition, bits)
  {
    match condition.bit {
      case None =>
        var value := ValueOf(condition.register, clbits, bits);
        holds := Some(value == condition.equals);
      case Some(i) =>
        if i >= |condition.register| {
          return None;
        }
        holds := Some((if clbits[condition.register[i]] then 1 else 0) == condition.equals);
    }
  }

  /** A measurement of the arrays, without its classical bit. */
  method MeasureQubit(
    sqrt: real -> real, random: nat -> real, state: StatevectorState, qubit: nat, ghost w: World, draws: nat)
    returns (one: bool, collapsed: bool)
    requires IsSquareRoot(sqrt) && state.Represents(w.state) && qubit < state.qubitCount && draws == w.draws
    modifies state.real_, state.imaginary
    ensures one == Drawn(random, state.qubitCount, w, qubit)
    ensures collapsed <==> Collapsed(sqrt, state.qubitCount, w.state, qubit, one).Some?
    ensures collapsed ==> state.Represents(Collapsed(sqrt, state.qubitCount, w.state, qubit, one).value)
  {
    hide Collapsed, Project, Weight, IsSquareRoot, Stores;
    var probability := state.ProbabilityOfOne(qubit, w.state);
    one := random(draws) < probability;
    collapsed := state.Collapse(sqrt, qubit, one, w.state);
  }

  method ApplyBody(
    trig: Trig, sqrt: real -> real, random: nat -> real, state: StatevectorState, body: Simple, clbits: seq<bool>,
    draws: nat,
    ghost w: World)
    returns (applied: bool, clbits': seq<bool>, draws': nat)
    requires IsSquareRoot(sqrt) && InRange(body, state.qubitCount, |clbits|)
    requires state.Represents(w.state) && AreBits(clbits, w.clbits) && draws == w.draws
    modifies state.real_, state.imaginary
    ensures applied <==> RunBody(trig, sqrt, random, state.qubitCount, body, w).Some?
    ensures applied ==>
      var next := RunBody(trig, sqrt, random, state.qubitCount, body, w).value;
      state.Represents(next.state) && AreBits(clbits', next.clbits) && draws' == next.draws && |clbits'| == |clbits|
  {
    hide Collapsed, Drawn, IsSquareRoot, Stores, OperatorOf, After;
    clbits', draws' := clbits, draws;
    match body {
      case Apply(gate) =>
        applied := state.ApplyGate(trig, gate, w.state);
      case Measure(qubit, clbit) =>
        var one;
        one, applied := MeasureQubit(sqrt, random, state, qubit, w, draws);
        clbits', draws' := clbits[clbit := one], draws + 1;
      case Reset(qubit) =>
        var one;
        one, applied := MeasureQubit(sqrt, random, state, qubit, w, draws);
        if applied && one {
          state.ApplySingleQubit(FLIP, qubit, Collapsed(sqrt, state.qubitCount, w.state, qubit, one).value);
        }
        draws' := draws + 1;
      case Barrier(_) =>
        applied := true;
    }
  }

  /** Runs the circuit once on the arrays and returns the classical bits. */
  method ExecuteOnce(
    trig: Trig, sqrt: real -> real, random: nat -> real, state: StatevectorState, operations: seq<Operation>,
    clbitCount: nat)
    returns (result: Option<seq<bool>>)
    requires IsSquareRoot(sqrt) && AllInRange(operations, state.qubitCount, clbitCount) && state.Represents(ZeroState())
    modifies state.real_, state.imaginary
    ensures result.Some? <==> Trajectory(trig, sqrt, random, state.qubitCount, operations, InitialWorld()).Some?
    ensures result.Some? ==>
      var end := Trajectory(trig, sqrt, random, state.qubitCount, operations, InitialWorld()).value;
      state.Represents(end.state) && |result.value| == clbitCount && AreBits(result.value, end.clbits)
  {
    hide Trajectory, RunBody, IsSquareRoot, Stores, Holds, InRange;
    var n := state.qubitCount;
    var clbits, draws := seq(clbitCount, _ => false), 0;
    ghost var w := InitialWorld();
    for k := 0 to |operations|
      invariant state.Represents(w.state) && AreBits(clbits, w.clbits) && draws == w.draws && |clbits| == clbitCount
      invariant Trajectory(trig, sqrt, random, n, operations, InitialWorld())
        == Trajectory(trig, sqrt, random, n, operations[k..], w)
    {
      TrajectoryStep(trig, sqrt, random, n, operations, k, w);
      assert OperationInRange(operations[k], n, clbitCount);
      var holds := Some(true);
      if operations[k].Conditional? {
        holds := TestCondition(operations[k].condition, clbits, w.clbits);
        if holds.None? {
          return None;
        }
      }
      if holds.value {
        var applied;
        ghost var before := w;
        applied, clbits, draws := ApplyBody(trig, sqrt, random, state, BodyOf(operations[k]), clbits, draws, w);
        if !applied {
          return None;
        }
        w := RunBody(trig, sqrt, random, n, BodyOf(operations[k]), before).value;
      }
    }
    TrajectoryStep(trig, sqrt, random, n, operations, |operations|, w);
    result := Some(clbits);
  }

  lemma TrajectoryStep(
    trig: Trig, sqrt: real -> real, random: nat -> real, n: nat, operations: seq<Operation>, k: nat, w: World)
    requires k <= |operations| && IsSquareRoot(sqrt)
    ensures operations[0..] == operations
    ensures k < |operations| ==>
      var next := RunOperation(trig, sqrt, random, n, operations[k], w);
      Trajectory(trig, sqrt, random, n, operations[k..], w)
        == if next.None? then None else Trajectory(trig, sqrt, random, n, operations[k + 1..], next.value)
    ensures k == |operations| ==> Trajectory(trig, sqrt, random, n, operations[k..], w) == Some(w)
  {
    hide RunOperation, IsSquareRoot;
    if k < |operations| {
      assert operations[k..][0] == operations[k] && operations[k..][1..] == operations[k + 1..];
    }
  }

  predicate MeasuresAnything(operations: seq<Operation>) {
    exists k :: 0 <= k < |operations| && BodyOf(operations[k]).Measure?
  }

  /** The state of a circuit without measurement, or a refusal. */
  method SimulateStatevector(
    trig: Trig, sqrt: real -> real, random: nat -> real, n: nat, clbitCount: nat, operations: seq<Operation>)
    returns (result: Option<StatevectorState>)
    requires IsSquareRoot(sqrt) && AllInRange(operations, n, clbitCount)
    ensures result.Some? <==>
      && 0 < n <= 24 && (forall k :: 0 <= k < |operations| ==> !BodyOf(operations[k]).Measure?)
      && Trajectory(trig, sqrt, random, n, operations, InitialWorld()).Some?
    ensures result.Some? ==>
      && result.value.qubitCount == n
      && result.value.Represents(Trajectory(trig, sqrt, random, n, operations, InitialWorld()).value.state)
  {
    hide Trajectory, IsSquareRoot, AllInRange, Stores;
    if n == 0 || MeasuresAnything(operations) || n > MAX_SIMULATED_QUBITS {
      return None;
    }
    var state := new StatevectorState(n);
    var clbits := ExecuteOnce(trig, sqrt, random, state, operations, clbitCount);
    result := if clbits.Some? then Some(state) else None;
  }

  predicate DrawsNothing(operations: seq<Operation>) {
    forall k :: 0 <= k < |operations| ==> !BodyOf(operations[k]).Measure? && !BodyOf(operations[k]).Reset?
  }

  /** Without measurements and resets the run is the one branch there is. */
  lemma {:induction false} NothingDrawn(
    trig: Trig, sqrt: real -> real, random: nat -> real, outcome: nat -> bool, n: nat, operations: seq<Operation>,
    w: World)
    requires IsSquareRoot(sqrt) && DrawsNothing(operations)
    ensures Trajectory(trig, sqrt, random, n, operations, w) == Run(trig, outcome, operations, w)
    decreases |operations|
  {
    hide IsSquareRoot, OperatorOf, After, Holds;
    if |operations| > 0 {
      assert !BodyOf(operations[0]).Measure? && !BodyOf(operations[0]).Reset?;
      var next := Step(trig, outcome, operations[0], w);
      if next.Some? { NothingDrawn(trig, sqrt, random, outcome, n, operations[1..], next.value); }
    }
  }

  // ---------------------------------------------------------------- runs are normalised branches

  ghost predicate IsRandom(random: nat -> real) {
    forall draw: nat :: 0.0 <= random(draw) < 1.0
  }

  /** w is the branch v brought to norm 1. */
  ghost predicate Normalises(n: nat, factor: real, v: World, w: World) {
    && factor > 0.0 && Signed(factor, v.state, w.state) && Weight(n, w.state) == 1.0
    && w.clbits == v.clbits && w.draws == v.draws
  }

  lemma WeightScaled(n: nat, factor: real, psi: State, phi: State)
    requires Signed(factor, psi, phi)
    ensures Weight(n, phi) == factor * factor * Weight(n, psi)
  {
    hide NormSq, Mul;
    var c := Complex(factor * factor, 0.0);
    forall k: set<int> ensures Weights(phi)(k) == Mul(c, Weights(psi)(k)) {
      SignedAt(factor, psi, phi, k);
      WeightOfScaled(factor, psi(k));
    }
    Sums.SumScaled(Qubits(n), {}, Weights(phi), c, Weights(psi));
    RealProduct(factor * factor, Weight(n, psi));
  }

  lemma WeightOfScaled(factor: real, z: Complex)
    ensures Complex(NormSq(Scale(factor, z)), 0.0) == Mul(Complex(factor * factor, 0.0), Complex(NormSq(z), 0.0))
  {
    hide NormSq, Mul;
    ScaleIsProduct(factor, z);
    NormSqMul(Complex(factor, 0.0), z);
    RealNorm(factor);
    RealProduct(factor * factor, NormSq(z));
  }

  lemma RealNorm(r: real)
    ensures NormSq(Complex(r, 0.0)) == r * r
  {
  }

  lemma RealProduct(r: real, x: real)
    ensures Mul(Complex(r, 0.0), Complex(x, 0.0)) == Complex(r * x, 0.0)
  {
  }

  /** The two outcomes share the weight. */
  lemma WeightSplits(n: nat, psi: State, qubit: int)
    ensures Weight(n, Project(psi, qubit, false)) + Weight(n, Project(psi, qubit, true)) == Weight(n, psi)
  {
    hide Norm, Project;
    MeasurementSplitsNorm(Qubits(n), psi, qubit);
  }

  /** What the engine draws with is the weight of the branch that follows, relative to the branch so far. */
  lemma ProbabilityIsConditional(n: nat, factor: real, v: World, w: World, qubit: nat, outcome: bool)
    requires Normalises(n, factor, v, w)
    ensures Weight(n, Project(w.state, qubit, outcome)) * Weight(n, v.state)
      == Weight(n, Project(v.state, qubit, outcome))
    ensures factor * factor * Weight(n, v.state) == 1.0
  {
    hide Project, Signed;
    WeightScaled(n, factor, v.state, w.state);
    ProjectSigned(qubit, outcome, factor, v.state, w.state);
    WeightScaled(n, factor, Project(v.state, qubit, outcome), Project(w.state, qubit, outcome));
    Regrouped(factor * factor, Weight(n, v.state), Weight(n, Project(v.state, qubit, outcome)));
  }

  lemma Regrouped(s: real, x: real, y: real)
    requires s * x == 1.0
    ensures s * y * x == y
  {
    assert s * y * x == (s * x) * y;
  }

  /** Collapsing the engine's state is projecting the branch; an outcome with weight is never refused. */
  lemma CollapseNormalises(sqrt: real -> real, n: nat, factor: real, v: World, w: World, qubit: nat, outcome: bool)
      returns (factor': real)
    requires IsSquareRoot(sqrt) && Normalises(n, factor, v, w) && Weight(n, Project(w.state, qubit, outcome)) > 0.0
    ensures Collapsed(sqrt, n, w.state, qubit, outcome).Some?
    ensures factor' > 0.0
    ensures var collapsed := Collapsed(sqrt, n, w.state, qubit, outcome).value;
      Signed(factor', Project(v.state, qubit, outcome), collapsed) && Weight(n, collapsed) == 1.0
  {
    hide Project, IsSquareRoot;
    var branch := Project(w.state, qubit, outcome);
    var weight := Weight(n, branch);
    RootPositive(sqrt, weight);
    var r := 1.0 / sqrt(weight);
    var collapsed := Collapsed(sqrt, n, w.state, qubit, outcome).value;
    WeightScaled(n, r, branch, collapsed);
    RootCancels(sqrt, weight);
    ProjectSigned(qubit, outcome, factor, v.state, w.state);
    factor' := r * factor;
    ProductPositive(r, factor);
    forall k: set<int> ensures collapsed(k) == Scale(factor', Project(v.state, qubit, outcome)(k)) {
      SignedAt(factor, Project(v.state, qubit, outcome), branch, k);
      ScaleTwice(factor, r, Project(v.state, qubit, outcome)(k));
    }
  }

  lemma ScaleTwice(s: real, t: real, z: Complex)
    ensures Scale(t, Scale(s, z)) == Scale(t * s, z)
  {
  }

  lemma RootCancels(sqrt: real -> real, x: real)
    requires IsSquareRoot(sqrt) && x > 0.0 && sqrt(x) > 0.0
    ensures (1.0 / sqrt(x)) * (1.0 / sqrt(x)) * x == 1.0
  {
    var root := sqrt(x);
    assert root * root == x;
    var r := 1.0 / root;
    assert r * root == 1.0;
    Regrouped2(r, root);
  }

  lemma Regrouped2(r: real, root: real)
    requires r * root == 1.0
    ensures r * r * (root * root) == 1.0
  {
    assert r * r * (root * root) == (r * root) * (r * root);
  }

  /** A drawn outcome always has weight. */
  lemma DrawnHasWeight(random: nat -> real, n: nat, w: World, qubit: nat)
    requires IsRandom(random) && Weight(n, w.state) == 1.0
    ensures Weight(n, Project(w.state, qubit, Drawn(random, n, w, qubit))) > 0.0
  {
    hide Project;
    WeightSplits(n, w.state, qubit);
  }

  /** The outcome record says what the engine draws. */
  ghost predicate Records(random: nat -> real, outcome: nat -> bool, n: nat, body: Simple, w: World) {
    match body
    case Measure(qubit, _) => outcome(w.draws) == Drawn(random, n, w, qubit)
    case Reset(qubit) => outcome(w.draws) == Drawn(random, n, w, qubit)
    case _ => true
  }

  lemma GateKeepsWeight(trig: Trig, gate: Gate, n: nat, op: Operator, psi: State)
    requires OperatorOf(trig, gate) == Some(op) && DistinctQubits(gate.qubits)
    requires forall i :: 0 <= i < |gate.qubits| ==> gate.qubits[i] < n
    requires Lawful(trig)
    ensures Weight(n, After(op, psi)) == Weight(n, psi)
  {
    hide TrigLaws, UnitCircle, DistinctQubits, OperatorOf, After, Norm, CanUndo, Support;
    GateCanUndo(trig, gate);
    SupportOfGate(trig, gate);
    forall i | 0 <= i < |gate.qubits| ensures gate.qubits[i] in Qubits(n) {
      assert Qubits(n)[gate.qubits[i]] == gate.qubits[i];
    }
    UsedSupport(Qubits(n), gate, op);
    OperatorKeepsNorm(Qubits(n), op, psi);
  }

  lemma FlipKeepsWeight(n: nat, qubit: nat, psi: State)
    requires qubit < n
    ensures Weight(n, After(Matrix(FLIP, {}, qubit), psi)) == Weight(n, psi)
  {
    hide After, Norm, IsUnitary;
    FlipIsUnitary();
    assert Qubits(n)[qubit] == qubit;
    MatrixKeepsNorm(Qubits(n), FLIP, {}, qubit, psi);
  }

  lemma BodyFollows(
    trig: Trig, sqrt: real -> real, random: nat -> real, outcome: nat -> bool, n: nat, clbits: nat, body: Simple,
    factor: real, v: World, w: World)
    returns (factor': real)
    requires IsSquareRoot(sqrt) && Lawful(trig) && InRange(body, n, clbits) && Normalises(n, factor, v, w)
    requires Records(random, outcome, n, body, w) && IsRandom(random)
    ensures var t, r := RunBody(trig, sqrt, random, n, body, w), StepSimple(trig, outcome, body, v);
      (t.Some? <==> r.Some?) && (t.Some? ==> Normalises(n, factor', r.value, t.value))
  {
    hide IsSquareRoot, Lawful, IsRandom, OperatorOf, After, Signed, Project, Drawn, Collapsed, Weight;
    factor' := factor;
    match body {
      case Apply(gate) =>
        if OperatorOf(trig, gate).Some? {
          GateKeepsWeight(trig, gate, n, OperatorOf(trig, gate).value, w.state);
          AfterSigned(OperatorOf(trig, gate).value, factor, v.state, w.state);
        }
      case Measure(qubit, clbit) =>
        DrawnHasWeight(random, n, w, qubit);
        factor' := CollapseNormalises(sqrt, n, factor, v, w, qubit, outcome(w.draws));
      case Reset(qubit) =>
        DrawnHasWeight(random, n, w, qubit);
        factor' := CollapseNormalises(sqrt, n, factor, v, w, qubit, outcome(w.draws));
        if outcome(w.draws) {
          var collapsed := Collapsed(sqrt, n, w.state, qubit, true).value;
          FlipKeepsWeight(n, qubit, collapsed);
          AfterSigned(Matrix(FLIP, {}, qubit), factor', Project(v.state, qubit, true), collapsed);
        }
      case Barrier(_) =>
    }
  }

  // ---------------------------------------------------------------- records piece by piece

  lemma StepReads(trig: Trig, o: nat -> bool, o': nat -> bool, operation: Operation, v: World)
    requires var next := Step(trig, o, operation, v);
      next.Some? && next.value.draws > v.draws ==> o(v.draws) == o'(v.draws)
    ensures Step(trig, o, operation, v) == Step(trig, o', operation, v)
    ensures var next := Step(trig, o, operation, v); next.Some? ==> next.value.draws >= v.draws
  {
    hide OperatorOf, After, Project;
  }

  lemma {:induction false} RunReads(trig: Trig, o: nat -> bool, o': nat -> bool, operations: seq<Operation>, v: World)
    requires forall d: nat :: d >= v.draws ==> o(d) == o'(d)
    ensures Run(trig, o, operations, v) == Run(trig, o', operations, v)
    decreases |operations|
  {
    hide Step;
    if |operations| > 0 {
      StepReads(trig, o, o', operations[0], v);
      var next := Step(trig, o, operations[0], v);
      if next.Some? { RunReads(trig, o, o', operations[1..], next.value); }
    }
  }

  /** What the engine draws for an operation, if it draws at all. */
  ghost predicate DrawnFor(random: nat -> real, n: nat, body: Simple, w: World) {
    match body
    case Measure(qubit, _) => Drawn(random, n, w, qubit)
    case Reset(qubit) => Drawn(random, n, w, qubit)
    case _ => false
  }

  lemma OperationFollows(
    trig: Trig, sqrt: real -> real, random: nat -> real, n: nat, clbits: nat, operation: Operation,
    factor: real, v: World, w: World, one: bool)
    returns (factor': real)
    requires IsSquareRoot(sqrt) && Lawful(trig) && OperationInRange(operation, n, clbits) && Normalises(n, factor, v, w)
    requires IsRandom(random) && one == DrawnFor(random, n, BodyOf(operation), w)
    ensures var t, r := RunOperation(trig, sqrt, random, n, operation, w), Step(trig, (d: nat) => one, operation, v);
      (t.Some? <==> r.Some?) && (t.Some? ==> Normalises(n, factor', r.value, t.value))
  {
    hide IsSquareRoot, Lawful, IsRandom, RunBody, StepSimple, Normalises, InRange, Drawn, Holds;
    assert v.clbits == w.clbits by { ClbitsAgree(n, factor, v, w); }
    factor' := BodyFollows(trig, sqrt, random, (d: nat) => one, n, clbits, BodyOf(operation), factor, v, w);
    if operation.Conditional? && Holds(operation.condition, w.clbits) == Some(false) { factor' := factor; }
  }

  lemma ClbitsAgree(n: nat, factor: real, v: World, w: World)
    requires Normalises(n, factor, v, w)
    ensures v.clbits == w.clbits && v.draws == w.draws
  {
  }

  /**
   * Whatever random numbers are drawn, the engine's run is one branch of the circuit, brought to norm 1: there is a
   * record of outcomes along which the circuit is refused exactly when the engine refuses it, and otherwise ends with
   * the same classical bits and proportional amplitudes.
   */
  lemma {:induction false} TrajectoryIsBranch(
    trig: Trig, sqrt: real -> real, random: nat -> real, n: nat, clbits: nat, operations: seq<Operation>,
    factor: real, v: World, w: World)
    returns (outcome: nat -> bool, factor': real)
    requires IsSquareRoot(sqrt) && Lawful(trig) && IsRandom(random) && AllInRange(operations, n, clbits)
    requires Normalises(n, factor, v, w)
    ensures var t, r := Trajectory(trig, sqrt, random, n, operations, w), Run(trig, outcome, operations, v);
      (t.Some? <==> r.Some?) && (t.Some? ==> Normalises(n, factor', r.value, t.value))
    decreases |operations|
  {
    hide IsSquareRoot, Lawful, IsRandom, RunOperation, Step, Normalises, OperationInRange, Drawn;
    outcome, factor' := NoOutcome, factor;
    if |operations| > 0 {
      var one := DrawnFor(random, n, BodyOf(operations[0]), w);
      var still := (d: nat) => one;
      var between := OperationFollows(trig, sqrt, random, n, clbits, operations[0], factor, v, w, one);
      var next := Step(trig, still, operations[0], v);
      if next.Some? {
        var rest;
        var moved := RunOperation(trig, sqrt, random, n, operations[0], w).value;
        rest, factor' := TrajectoryIsBranch(trig, sqrt, random, n, clbits, operations[1..], between, next.value, moved);
        outcome := (d: nat) => if d < next.value.draws then one else rest(d);
        StepReads(trig, still, outcome, operations[0], v);
        RunReads(trig, rest, outcome, operations[1..], next.value);
      } else {
        outcome := still;
      }
    }
  }

  lemma {:induction false} ZeroSum(ids: seq<int>)
    requires Sums.Distinct(ids)
    ensures Sums.Sum(ids, {}, Weights(ZeroState())) == ONE
  {
    hide NormSq;
    RealNorm(1.0);
    RealNorm(0.0);
    Sums.SumSingle(ids, {}, Weights(ZeroState()), {});
  }

  lemma InitialNormalises(n: nat)
    ensures Normalises(n, 1.0, InitialWorld(), InitialWorld())
  {
    hide Weights, Scale;
    ZeroSum(Qubits(n));
    forall k: set<int> ensures ZeroState()(k) == Scale(1.0, ZeroState()(k)) { ScaleOne(ZeroState()(k)); }
  }

  /** The engine's run from |0...0>: a branch whose probability is its own squared norm. */
  lemma RunIsBranch(
    trig: Trig, sqrt: real -> real, random: nat -> real, n: nat, clbits: nat, operations: seq<Operation>)
    returns (outcome: nat -> bool, factor: real)
    requires IsSquareRoot(sqrt) && Lawful(trig) && IsRandom(random) && AllInRange(operations, n, clbits)
    ensures var t, r := Trajectory(trig, sqrt, random, n, operations, InitialWorld()),
      Run(trig, outcome, operations, InitialWorld());
      && (t.Some? <==> r.Some?)
      && (t.Some? ==> Normalises(n, factor, r.value, t.value) && factor * factor * Weight(n, r.value.state) == 1.0)
  {
    hide IsSquareRoot, Lawful, IsRandom, Trajectory, Run, Normalises, AllInRange;
    InitialNormalises(n);
    outcome, factor :=
      TrajectoryIsBranch(trig, sqrt, random, n, clbits, operations, 1.0, InitialWorld(), InitialWorld());
    var t, r := Trajectory(trig, sqrt, random, n, operations, InitialWorld()),
      Run(trig, outcome, operations, InitialWorld());
    if t.Some? { ProbabilityIsConditional(n, factor, r.value, t.value, 0, true); }
  }

  // ---------------------------------------------------------------- every branch can be drawn

  lemma BodyShrinks(trig: Trig, outcome: nat -> bool, n: nat, clbits: nat, body: Simple, v: World)
    requires Lawful(trig) && InRange(body, n, clbits)
    ensures var r := StepSimple(trig, outcome, body, v); r.Some? ==> Weight(n, r.value.state) <= Weight(n, v.state)
  {
    hide Lawful, OperatorOf, After, Project, Weight;
    match body {
      case Apply(gate) =>
        if OperatorOf(trig, gate).Some? { GateKeepsWeight(trig, gate, n, OperatorOf(trig, gate).value, v.state); }
      case Measure(qubit, _) =>
        WeightSplits(n, v.state, qubit);
      case Reset(qubit) =>
        WeightSplits(n, v.state, qubit);
        FlipKeepsWeight(n, qubit, Project(v.state, qubit, true));
      case Barrier(_) =>
    }
  }

  lemma {:induction false} RunShrinks(
    trig: Trig, outcome: nat -> bool, n: nat, clbits: nat, operations: seq<Operation>, v: World)
    requires Lawful(trig) && AllInRange(operations, n, clbits)
    ensures var r := Run(trig, outcome, operations, v); r.Some? ==> Weight(n, r.value.state) <= Weight(n, v.state)
    decreases |operations|
  {
    hide Lawful, StepSimple, InRange, Holds, Weight;
    if |operations| > 0 {
      var next := Step(trig, outcome, operations[0], v);
      if next.Some? {
        assert OperationInRange(operations[0], n, clbits);
        BodyShrinks(trig, outcome, n, clbits, BodyOf(operations[0]), v);
        RunShrinks(trig, outcome, n, clbits, operations[1..], next.value);
      }
    }
  }

  lemma {:induction false} TrajectoryReads(
    trig: Trig, sqrt: real -> real, random: nat -> real, random': nat -> real, n: nat, operations: seq<Operation>,
    w: World)
    requires IsSquareRoot(sqrt) && forall d: nat :: d >= w.draws ==> random(d) == random'(d)
    ensures Trajectory(trig, sqrt, random, n, operations, w) == Trajectory(trig, sqrt, random', n, operations, w)
    decreases |operations|
  {
    hide RunOperation, IsSquareRoot;
    if |operations| > 0 {
      OperationReads(trig, sqrt, random, random', n, operations[0], w);
      var next := RunOperation(trig, sqrt, random, n, operations[0], w);
      if next.Some? { TrajectoryReads(trig, sqrt, random, random', n, operations[1..], next.value); }
    }
  }

  lemma OperationReads(
    trig: Trig, sqrt: real -> real, random: nat -> real, random': nat -> real, n: nat, operation: Operation, w: World)
    requires IsSquareRoot(sqrt)
    requires var next := RunOperation(trig, sqrt, random, n, operation, w);
      (next.Some? && next.value.draws == w.draws) || random(w.draws) == random'(w.draws)
    ensures RunOperation(trig, sqrt, random, n, operation, w) == RunOperation(trig, sqrt, random', n, operation, w)
    ensures var next := RunOperation(trig, sqrt, random, n, operation, w); next.Some? ==> next.value.draws >= w.draws
  {
    hide IsSquareRoot, OperatorOf, After, Collapsed, Weight, Project;
  }

  /** A number that makes the engine draw the wanted outcome for an operation. */
  lemma NumberFor(
    trig: Trig, outcome: nat -> bool, n: nat, clbits: nat, operation: Operation, factor: real, v: World, w: World)
    returns (x: real)
    requires Lawful(trig) && OperationInRange(operation, n, clbits) && Normalises(n, factor, v, w)
    requires var next := Step(trig, outcome, operation, v); next.Some? && Weight(n, next.value.state) > 0.0
    ensures 0.0 <= x < 1.0
    ensures Step(trig, outcome, operation, v).value.draws > v.draws ==>
      outcome(v.draws) == DrawnFor((d: nat) => x, n, BodyOf(operation), w)
  {
    hide Lawful, OperatorOf, After, Project, Weight, Signed, Holds;
    x := 0.0;
    var body, one := BodyOf(operation), outcome(v.draws);
    if Step(trig, outcome, operation, v).value.draws > v.draws {
      var qubit := body.qubit;
      if body.Reset? { FlipKeepsWeight(n, qubit, Project(v.state, qubit, one)); }
      ProbabilityIsConditional(n, factor, v, w, qubit, one);
      assert Weight(n, Project(v.state, qubit, one)) > 0.0;
      assert Weight(n, Project(w.state, qubit, one)) != 0.0;
      WeightSplits(n, w.state, qubit);
      if !one { x := Weight(n, Project(w.state, qubit, true)); }
    }
  }

  /** Conversely, every branch with some weight is what the engine runs for some random numbers. */
  lemma {:induction false} EveryBranchIsDrawn(
    trig: Trig, sqrt: real -> real, outcome: nat -> bool, n: nat, clbits: nat, operations: seq<Operation>,
    factor: real, v: World, w: World)
    returns (random: nat -> real, factor': real)
    requires IsSquareRoot(sqrt) && Lawful(trig) && AllInRange(operations, n, clbits) && Normalises(n, factor, v, w)
    requires var r := Run(trig, outcome, operations, v); r.Some? && Weight(n, r.value.state) > 0.0
    ensures IsRandom(random)
    ensures var t := Trajectory(trig, sqrt, random, n, operations, w);
      t.Some? && Normalises(n, factor', Run(trig, outcome, operations, v).value, t.value)
    decreases |operations|
  {
    hide IsSquareRoot, Lawful, RunOperation, Step, Normalises, OperationInRange, Drawn, Weight, DrawnFor;
    random, factor' := (d: nat) => 0.0, factor;
    if |operations| > 0 {
      var next := Step(trig, outcome, operations[0], v).value;
      RunShrinks(trig, outcome, n, clbits, operations[1..], next);
      var x := NumberFor(trig, outcome, n, clbits, operations[0], factor, v, w);
      var constant := (d: nat) => x;
      var one := DrawnFor(constant, n, BodyOf(operations[0]), w);
      var between := OperationFollows(trig, sqrt, constant, n, clbits, operations[0], factor, v, w, one);
      StepReads(trig, outcome, (d: nat) => one, operations[0], v);
      var moved := RunOperation(trig, sqrt, constant, n, operations[0], w).value;
      ClbitsAgree(n, factor, v, w);
      ClbitsAgree(n, between, next, moved);
      var rest;
      rest, factor' := EveryBranchIsDrawn(trig, sqrt, outcome, n, clbits, operations[1..], between, next, moved);
      random := (d: nat) => if d < next.draws then x else rest(d);
      OperationReads(trig, sqrt, constant, random, n, operations[0], w);
      TrajectoryReads(trig, sqrt, rest, random, n, operations[1..], moved);
    }
  }
}
