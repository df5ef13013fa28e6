/**
 * When an operation that is not a gate may move behind a gate, and what is then computed
 * (src/engine/mitigation.ts:91-113).
 */
module Reordering {
  import opened Options
  import opened Circuits
  import opened ComplexNumbers
  import opened Semantics
  import opened OperatorLaws
  import opened PeepholeRules
  import opened Refinement
  import opened Phases

  // ---------------------------------------------------------------- operators that keep a bit

  /** The qubit is not what the operator changes: untouched, a control, or the target of a diagonal matrix. */
  predicate KeepsQubit(op: Operator, q: int) {
    match op
    case Matrix(m, _, target) => q != target || IsDiagonal(m)
    case Exchange(_, a, b) => q != a && q != b
  }

  /** No operand occurs twice. */
  predicate IsApart(op: Operator) {
    match op
    case Matrix(_, controls, target) => target !in controls
    case Exchange(controls, a, b) => a !in controls && b !in controls && a != b
  }

  lemma KeepsIsKeepsBit(op: Operator, q: int)
    requires KeepsQubit(op, q)
    ensures KeepsBit(op, q)
  {
    forall k: set<int>, j: bool ensures Coefficient(op, k, j) == ZERO || (q in Source(op, k, j) <==> q in k) {
      if op.Matrix? && q == op.target && Active(op, k) { assert IsDiagonal(op.m); }
    }
  }

  lemma ApartGate(trig: Trig, gate: Gate)
    requires DistinctQubits(gate.qubits) && OperatorOf(trig, gate).Some?
    ensures IsApart(OperatorOf(trig, gate).value)
  {
    hide SingleQubitMatrix, Angles;
  }

  /** Projecting on a kept bit commutes with the operator. */
  lemma ProjectThrough(op: Operator, q: int, o: bool, psi: State)
    requires KeepsQubit(op, q)
    ensures Signed(1.0, After(op, Project(psi, q, o)), Project(After(op, psi), q, o))
  {
    hide Mul, Add, Scale, Coefficient, Source, KeepsQubit, After;
    KeepsIsKeepsBit(op, q);
    var there, back := After(op, Project(psi, q, o)), Project(After(op, psi), q, o);
    forall k: set<int> ensures back(k) == Scale(1.0, there(k)) {
      ScaleOne(there(k));
      AfterAt(op, Project(psi, q, o), k);
      AfterAt(op, psi, k);
      ProjectedTerm(op, q, o, psi, k, false);
      ProjectedTerm(op, q, o, psi, k, true);
      ZeroSum();
    }
  }

  lemma ZeroSum()
    ensures Add(ZERO, ZERO) == ZERO
  {
  }

  lemma ProjectedTerm(op: Operator, q: int, o: bool, psi: State, k: set<int>, j: bool)
    requires KeepsBit(op, q)
    ensures var c, source := Coefficient(op, k, j), Source(op, k, j);
      Mul(c, Project(psi, q, o)(source)) == if (q in k) == o then Mul(c, psi(source)) else ZERO
  {
    hide Mul, Coefficient, Source;
    var c, source := Coefficient(op, k, j), Source(op, k, j);
    MulZero(c);
    MulZero(psi(source));
    MulZero(Project(psi, q, o)(source));
  }

  // ---------------------------------------------------------------- what may move behind a gate

  predicate SharesNone(first: seq<nat>, second: seq<nat>) {
    forall q :: q in first ==> q !in second
  }

  /**
   * A barrier moves behind any gate, a measurement behind a gate that keeps its qubit, a reset and a conditional gate
   * behind one on other qubits. A gate the engine refuses stops the run either way.
   */
  predicate MovesBehind(trig: Trig, operation: Operation, gate: Gate) {
    var op := OperatorOf(trig, gate);
    op.Some? ==>
      match BodyOf(operation)
      case Barrier(_) => true
      case Measure(q, _) => KeepsQubit(op.value, q)
      case Reset(q) => q !in gate.qubits
      case Apply(other) => SharesNone(other.qubits, gate.qubits)
  }

  lemma OperatorSupport(trig: Trig, gate: Gate, q: int)
    requires OperatorOf(trig, gate).Some? && q in Support(OperatorOf(trig, gate).value)
    ensures q >= 0 && q in gate.qubits
  {
    hide SingleQubitMatrix, Angles;
  }

  lemma Untouches(trig: Trig, gate: Gate, q: nat)
    requires OperatorOf(trig, gate).Some? && q !in gate.qubits
    ensures KeepsQubit(OperatorOf(trig, gate).value, q)
      && Support(Matrix(FLIP, {}, q)) !! Support(OperatorOf(trig, gate).value)
  {
    hide OperatorOf;
    var op := OperatorOf(trig, gate).value;
    if q in Support(op) { OperatorSupport(trig, gate, q); }
  }

  /** One simple operation, then the gate, against the gate first. */
  lemma SimpleMoves(trig: Trig, outcome: nat -> bool, simple: Simple, gate: Gate, w: World)
    requires OperatorOf(trig, gate).Some? && MovesBehind(trig, Plain(simple), gate)
    requires StepSimple(trig, outcome, simple, w).Some?
    ensures var op := OperatorOf(trig, gate).value;
      var moved := StepSimple(trig, outcome, simple, w.(state := After(op, w.state)));
      var first := StepSimple(trig, outcome, simple, w).value;
      moved.Some? && Agree(1.0, first.(state := After(op, first.state)), moved.value)
  {
    hide OperatorOf, KeepsQubit, Signed, After, Project;
    var op := OperatorOf(trig, gate).value;
    match simple {
      case Barrier(_) => SignedSame(After(op, w.state));
      case Measure(q, _) => ProjectThrough(op, q, outcome(w.draws), w.state);
      case Reset(q) => ResetMoves(trig, gate, q, outcome(w.draws), w.state);
      case Apply(other) => GateMoves(trig, other, gate, w.state);
    }
  }

  lemma ResetMoves(trig: Trig, gate: Gate, q: nat, o: bool, psi: State)
    requires OperatorOf(trig, gate).Some? && q !in gate.qubits
    ensures var op := OperatorOf(trig, gate).value;
      var flip: Operator := Matrix(FLIP, {}, q);
      && Signed(1.0, After(op, Project(psi, q, o)), Project(After(op, psi), q, o))
      && Signed(1.0, After(op, After(flip, Project(psi, q, o))), After(flip, Project(After(op, psi), q, o)))
  {
    hide OperatorOf, KeepsQubit, Signed, After, Project, Support;
    var op := OperatorOf(trig, gate).value;
    var flip: Operator := Matrix(FLIP, {}, q);
    Untouches(trig, gate, q);
    ProjectThrough(op, q, o, psi);
    DisjointCommute(flip, op);
    var projected := Project(psi, q, o);
    assert Signed(1.0, After(flip, After(op, projected)), After(op, After(flip, projected)));
    SignedSym(After(flip, After(op, projected)), After(op, After(flip, projected)));
    AfterSigned(flip, 1.0, After(op, projected), Project(After(op, psi), q, o));
    EqualTrans(After(op, After(flip, projected)), After(flip, After(op, projected)),
               After(flip, Project(After(op, psi), q, o)));
  }

  lemma GateMoves(trig: Trig, other: Gate, gate: Gate, psi: State)
    requires OperatorOf(trig, other).Some? && OperatorOf(trig, gate).Some? && SharesNone(other.qubits, gate.qubits)
    ensures var p, q := OperatorOf(trig, other).value, OperatorOf(trig, gate).value;
      Signed(1.0, After(q, After(p, psi)), After(p, After(q, psi)))
  {
    hide OperatorOf, Signed, After, Support;
    var p, q := OperatorOf(trig, other).value, OperatorOf(trig, gate).value;
    forall x | x in Support(p) ensures x !in Support(q) {
      OperatorSupport(trig, other, x);
      if x in Support(q) { OperatorSupport(trig, gate, x); }
    }
    DisjointCommute(q, p);
    assert Signed(1.0, After(q, After(p, psi)), After(p, After(q, psi)));
  }

  lemma GateStep(trig: Trig, outcome: nat -> bool, gate: Gate, w: World)
    ensures Step(trig, outcome, WithGate(gate), w)
         == var op := OperatorOf(trig, gate); if op.None? then None else Some(w.(state := After(op.value, w.state)))
  {
    hide OperatorOf, After;
  }

  lemma OperationMoves(trig: Trig, outcome: nat -> bool, operation: Operation, gate: Gate, w: World)
    requires OperatorOf(trig, gate).Some? && MovesBehind(trig, operation, gate)
    requires Step(trig, outcome, operation, w).Some?
    ensures var op := OperatorOf(trig, gate).value;
      var moved := Step(trig, outcome, operation, w.(state := After(op, w.state)));
      var first := Step(trig, outcome, operation, w).value;
      moved.Some? && Agree(1.0, first.(state := After(op, first.state)), moved.value)
  {
    hide OperatorOf, KeepsQubit, Signed, After, StepSimple, Holds;
    var op := OperatorOf(trig, gate).value;
    match operation {
      case Plain(simple) => SimpleMoves(trig, outcome, simple, gate, w);
      case Conditional(condition, body) =>
        if Holds(condition, w.clbits) == Some(true) {
          SimpleMoves(trig, outcome, body, gate, w);
        } else {
          SignedSame(After(op, w.state));
        }
    }
  }

  /** Such an operation may stand behind the gate. */
  lemma OneMovesBehind(trig: Trig, operation: Operation, gate: Gate)
    requires MovesBehind(trig, operation, gate)
    ensures Refines(trig, 1.0, [operation, WithGate(gate)], [WithGate(gate), operation])
  {
    hide OperatorOf, MovesBehind, Signed, After, Step, Run, WithGate;
    forall outcome: nat -> bool, w: World
      ensures AgreeIfRun(1.0, Run(trig, outcome, [operation, WithGate(gate)], w),
                              Run(trig, outcome, [WithGate(gate), operation], w))
    {
      RunPair(trig, outcome, operation, WithGate(gate), w);
      RunPair(trig, outcome, WithGate(gate), operation, w);
      GateStep(trig, outcome, gate, w);
      var first := Step(trig, outcome, operation, w);
      if first.Some? {
        GateStep(trig, outcome, gate, first.value);
        if OperatorOf(trig, gate).Some? { OperationMoves(trig, outcome, operation, gate, w); }
      }
    }
  }

  /** A gate slides in front of a list of such operations. */
  lemma {:induction false} ListMovesBehind(trig: Trig, operations: seq<Operation>, gate: Gate)
    requires forall i :: 0 <= i < |operations| ==> MovesBehind(trig, operations[i], gate)
    ensures Refines(trig, 1.0, operations + [WithGate(gate)], [WithGate(gate)] + operations)
    decreases |operations|
  {
    hide Refines, MovesBehind, WithGate;
    var g := [WithGate(gate)];
    if |operations| == 0 {
      assert operations + g == g && g + operations == g;
      PhaseRefl(trig, g);
    } else {
      var n := |operations| - 1;
      var front, last := operations[..n], operations[n];
      ListMovesBehind(trig, front, gate);
      OneMovesBehind(trig, last, gate);
      assert [last] + g == [last, WithGate(gate)] && g + [last] == [WithGate(gate), last];
      RefinesInContext(trig, 1.0, front, [last] + g, g + [last], []);
      RefinesInContext(trig, 1.0, [], front + g, g + front, [last]);
      assert front + ([last] + g) + [] == operations + g;
      assert front + (g + [last]) + [] == [] + (front + g) + [last];
      assert [] + (g + front) + [last] == g + operations;
      RefinesTrans(trig, 1.0, 1.0, operations + g, front + (g + [last]) + [], g + operations);
    }
  }

  // ---------------------------------------------------------------- a measurement and a gate, exactly

  /** If the operator does not keep the qubit, some state and outcome tell the two orders apart, under any factor. */
  lemma OrderMatters(op: Operator, q: int)
    requires IsApart(op) && !KeepsQubit(op, q)
    ensures exists psi: State, o: bool :: !Parallel(After(op, Project(psi, q, o)), Project(After(op, psi), q, o))
  {
    hide After, Mul, Add, Project, Parallel;
    match op {
      case Matrix(m, controls, target) =>
        if m.m10 != ZERO {
          MatrixWitness(m, controls, target, false);
        } else {
          MatrixWitness(m, controls, target, true);
        }
      case Exchange(controls, a, b) =>
        if q == a { ExchangeWitness(controls, a, b, q); } else { ExchangeWitness(controls, b, a, q); }
    }
  }

  lemma MatrixWitness(m: Matrix2, controls: set<int>, q: int, o: bool)
    requires q !in controls && (if o then m.m01 else m.m10) != ZERO
    ensures var op: Operator := Matrix(m, controls, q);
      exists psi: State, o: bool :: !Parallel(After(op, Project(psi, q, o)), Project(After(op, psi), q, o))
  {
    hide After, Mul, Add, Parallel;
    var op: Operator := Matrix(m, controls, q);
    var low, high := controls, controls + {q};
    assert low - {q} == low && low + {q} == high && high - {q} == low && high + {q} == high;
    var at, other := if o then high else low, if o then low else high;
    assert low != high;
    var psi := BasisState(at);
    var there, back := After(op, Project(psi, q, o)), Project(After(op, psi), q, o);
    MatrixAt(m, controls, q, Project(psi, q, o), other);
    MulOne(MatrixEntry(m, q in other, q in at));
    MulZero(MatrixEntry(m, q in other, q in other));
    AddZero(MatrixEntry(m, q in other, q in at));
    if Parallel(there, back) { ParallelAt(there, back, other); }
  }

  lemma ExchangeWitness(controls: set<int>, a: int, b: int, q: int)
    requires a !in controls && b !in controls && a != b && q == a
    ensures exists psi: State, o: bool ::
      (!Parallel(After(Exchange(controls, a, b), Project(psi, q, o)),
                 Project(After(Exchange(controls, a, b), psi), q, o))
       && !Parallel(After(Exchange(controls, b, a), Project(psi, q, o)),
                    Project(After(Exchange(controls, b, a), psi), q, o)))
  {
    hide After, Parallel;
    var at, other := controls + {a}, controls + {b};
    var psi := BasisState(at);
    assert SwapMembers(other, a, b) == at && SwapMembers(other, b, a) == at;
    ExchangeTells(Exchange(controls, a, b), controls, a, b, at, other);
    ExchangeTells(Exchange(controls, b, a), controls, a, b, at, other);
  }

  lemma ExchangeTells(op: Operator, controls: set<int>, a: int, b: int, at: set<int>, other: set<int>)
    requires op == Exchange(controls, a, b) || op == Exchange(controls, b, a)
    requires at == controls + {a} && other == controls + {b} && a !in controls && b !in controls && a != b
    ensures !Parallel(After(op, Project(BasisState(at), a, true)), Project(After(op, BasisState(at)), a, true))
  {
    hide After, Parallel;
    var psi := BasisState(at);
    var there, back := After(op, Project(psi, a, true)), Project(After(op, psi), a, true);
    assert SwapMembers(other, op.a, op.b) == at;
    AfterSwap(controls, op.a, op.b, Project(psi, a, true), other);
    if Parallel(there, back) { ParallelAt(there, back, other); }
  }
}
