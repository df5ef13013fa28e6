/** Dynamical decoupling: pulses in the idle windows of a circuit (src/engine/decoupling.ts:34-170). */
module Decoupling {
  import opened Options
  import opened Circuits
  import opened ComplexNumbers
  import opened Semantics
  import opened OperatorLaws
  import opened GateLaws
  import opened PeepholeRules
  import opened Refinement
  import opened PeepholeSoundness
  import opened Layering

  datatype Sequence = XX | XYXY

  function PulseNames(sequence: Sequence): seq<GateName> {
    match sequence
    case XX => [X, X]
    case XYXY => [X, Y, X, Y]
  }

  // ---------------------------------------------------------------- windows

  /** The qubit is in use in the layer. */
  ghost predicate IsBusy(operations: seq<Operation>, n: nat, layer: nat, q: nat)
    requires n <= |operations|
  {
    exists i :: 0 <= i < n && q in TouchedQubits(operations[i]) && LayerAt(operations, i) == layer
  }

  /** A measurement or reset of the qubit lies in an earlier layer. */
  ghost predicate IsCollapsed(operations: seq<Operation>, n: nat, layer: nat, q: nat)
    requires n <= |operations|
  {
    exists i :: 0 <= i < n && !IsGate(operations[i]) && q in TouchedQubits(operations[i])
      && LayerAt(operations, i) < layer
  }

  /** The qubit has been used in the layer or before it. */
  ghost predicate HasEntered(operations: seq<Operation>, n: nat, layer: nat, q: nat)
    requires n <= |operations|
  {
    exists i :: 0 <= i < n && q in TouchedQubits(operations[i]) && LayerAt(operations, i) <= layer
  }

  ghost predicate IsWindow(operations: seq<Operation>, layer: nat, q: nat) {
    && !IsBusy(operations, |operations|, layer, q)
    && !IsCollapsed(operations, |operations|, layer, q)
    && HasEntered(operations, |operations|, layer, q)
  }

  /** The qubits of a circuit in the order of their first use. */
  function QubitsUpto(operations: seq<Operation>, n: nat): seq<nat>
    requires n <= |operations|
  {
    if n == 0 then [] else WithNew(QubitsUpto(operations, n - 1), TouchedQubits(operations[n - 1]))
  }

  function WithNew(known: seq<nat>, qubits: seq<nat>): seq<nat> {
    if |qubits| == 0 then known
    else
      var before := WithNew(known, qubits[..|qubits| - 1]);
      var last := qubits[|qubits| - 1];
      if last in before then before else before + [last]
  }

  /** The windows of one layer among some qubits. */
  ghost function WindowsAmong(operations: seq<Operation>, layer: nat, qubits: seq<nat>): seq<nat> {
    if |qubits| == 0 then []
    else
      var last := qubits[|qubits| - 1];
      WindowsAmong(operations, layer, qubits[..|qubits| - 1])
        + (if IsWindow(operations, layer, last) then [last] else [])
  }

  ghost function Windows(operations: seq<Operation>, layer: nat): seq<nat> {
    WindowsAmong(operations, layer, QubitsUpto(operations, |operations|))
  }

  /** The number of windows in the layers up to one. */
  ghost function WindowCount(operations: seq<Operation>, layer: nat): nat {
    if layer == 0 then 0 else WindowCount(operations, layer - 1) + |Windows(operations, layer)|
  }

  // ---------------------------------------------------------------- insertion

  function Pulse(name: GateName, qubit: nat): Operation {
    WithGate(Gate(name, [], [qubit]))
  }

  function Pulses(names: seq<GateName>, qubit: nat): (block: seq<Operation>)
    ensures |block| == |names| && forall i :: 0 <= i < |block| ==> block[i] == Pulse(names[i], qubit)
  {
    seq(|names|, i requires 0 <= i < |names| => Pulse(names[i], qubit))
  }

  function PulseBlock(names: seq<GateName>, qubits: seq<nat>): seq<Operation> {
    if |qubits| == 0 then [] else PulseBlock(names, qubits[..|qubits| - 1]) + Pulses(names, qubits[|qubits| - 1])
  }

  /** The pulses in front of an operation: those of its layer, when it is the first of that layer. */
  ghost function PulsesBefore(operations: seq<Operation>, names: seq<GateName>, n: nat): seq<Operation>
    requires n < |operations|
  {
    if LayerAt(operations, n) > TopLayer(operations, n)
    then PulseBlock(names, Windows(operations, LayerAt(operations, n))) else []
  }

  ghost function Decoupled(operations: seq<Operation>, names: seq<GateName>, n: nat): seq<Operation>
    requires n <= |operations|
  {
    if n == 0 then []
    else Decoupled(operations, names, n - 1) + PulsesBefore(operations, names, n - 1) + [operations[n - 1]]
  }

  lemma DecoupledStep(operations: seq<Operation>, names: seq<GateName>, n: nat)
    requires 0 < n <= |operations|
    ensures Decoupled(operations, names, n)
         == Decoupled(operations, names, n - 1) + PulsesBefore(operations, names, n - 1) + [operations[n - 1]]
  {
    hide PulsesBefore;
  }

  // ---------------------------------------------------------------- the pulses do nothing

  /** One sequence of pulses is the identity, up to the sign of X Y X Y. */
  lemma SequenceDoesNothing(trig: Trig, sequence: Sequence, qubit: nat)
    requires TrigLaws(trig)
    ensures RefinesUpToPhase(trig, [], Pulses(PulseNames(sequence), qubit))
  {
    hide TrigLaws, RefinesUpToPhase;
    match sequence {
      case XX =>
        FlipTwice(trig, qubit);
        assert Pulses(PulseNames(XX), qubit) == [Pulse(X, qubit), Pulse(X, qubit)];
      case XYXY =>
        AlternateTwice(trig, qubit);
        assert Pulses(PulseNames(XYXY), qubit) == [Pulse(X, qubit), Pulse(Y, qubit), Pulse(X, qubit), Pulse(Y, qubit)];
    }
  }

  lemma FlipOperators(trig: Trig, qubit: nat)
    ensures OperatorOf(trig, Gate(X, [], [qubit])) == Some(Matrix(FLIP, {}, qubit))
    ensures OperatorOf(trig, Gate(Y, [], [qubit])) == Some(Matrix(FLIP_Y, {}, qubit))
  {
    hide Angles;
    assert Angles([]) == Some([]) by { NoAngles(); }
  }

  lemma NoAngles()
    ensures Angles([]) == Some([])
  {
  }

  lemma FlipTwice(trig: Trig, qubit: nat)
    requires TrigLaws(trig)
    ensures RefinesUpToPhase(trig, [], [Pulse(X, qubit), Pulse(X, qubit)])
  {
    hide TrigLaws, OperatorOf, SameThrough, Refines, Operators, Product;
    var gate := Gate(X, [], [qubit]);
    FlipOperators(trig, qubit);
    TwoOperators(trig, gate, gate);
    NoGates(trig);
    PauliSquares();
    InverseThrough(FLIP, FLIP, {}, qubit);
    SameSym([Matrix(FLIP, {}, qubit), Matrix(FLIP, {}, qubit)], []);
    RefinesByOperators(trig, 1.0, [], [WithGate(gate), WithGate(gate)]);
    assert IsSign(1.0);
  }

  lemma NoGates(trig: Trig)
    ensures Operators(trig, []) == Some([])
  {
  }

  const FLIP_Y := Matrix2(ZERO, Complex(0.0, -1.0), Complex(0.0, 1.0), ZERO)

  /** X then Y turns by diag(-i, i). */
  lemma FlipProduct(p: Complex, q: Complex)
    requires p == Complex(0.0, -1.0) && q == Complex(0.0, 1.0)
    ensures Product(Matrix2(ZERO, p, q, ZERO), FLIP) == Matrix2(p, ZERO, ZERO, q)
  {
    hide Product, Mul;
    AntidiagonalProduct(p, q, ONE, ONE);
    MulOne(p);
    MulOne(q);
  }

  lemma TurnTwice(r: real)
    requires r == 1.0
    ensures Product(Matrix2(Complex(0.0, -r), ZERO, ZERO, Complex(0.0, r)),
                    Matrix2(Complex(0.0, -r), ZERO, ZERO, Complex(0.0, r)))
         == ScaleMatrix(-1.0, IDENTITY)
  {
    hide Product, Mul;
    DiagonalProduct(Complex(0.0, -r), Complex(0.0, r), Complex(0.0, -r), Complex(0.0, r));
    ImaginarySquares(r);
  }

  lemma ImaginarySquares(r: real)
    ensures Mul(Complex(0.0, -r), Complex(0.0, -r)) == Complex(-(r * r), 0.0)
    ensures Mul(Complex(0.0, r), Complex(0.0, r)) == Complex(-(r * r), 0.0)
  {
    assert -r * -r == r * r;
  }

  lemma AlternateOnce(qubit: nat, turn: Matrix2)
    requires turn == Matrix2(Complex(0.0, -1.0), ZERO, ZERO, Complex(0.0, 1.0))
    ensures SameThrough(1.0, [Matrix(FLIP, {}, qubit), Matrix(FLIP_Y, {}, qubit)], [Matrix(turn, {}, qubit)])
  {
    hide Product, SameThrough;
    FlipProduct(Complex(0.0, -1.0), Complex(0.0, 1.0));
    ProductThrough(FLIP, FLIP_Y, {}, qubit);
  }

  lemma AlternateOperators(qubit: nat)
    ensures var p: Operator := Matrix(FLIP, {}, qubit);
      var q: Operator := Matrix(FLIP_Y, {}, qubit);
      SameThrough(-1.0, [], [p, q] + [p, q])
  {
    hide Signed, After, Product, Through;
    var p: Operator := Matrix(FLIP, {}, qubit);
    var q: Operator := Matrix(FLIP_Y, {}, qubit);
    var turn := Matrix2(Complex(0.0, -1.0), ZERO, ZERO, Complex(0.0, 1.0));
    var d: Operator := Matrix(turn, {}, qubit);
    var minus: Operator := Matrix(ScaleMatrix(-1.0, IDENTITY), {}, qubit);
    AlternateOnce(qubit, turn);
    TurnTwice(1.0);
    forall psi: State ensures Signed(-1.0, Through([], psi), Through([p, q] + [p, q], psi)) {
      ThroughConcat([p, q], [p, q], psi);
      ThroughSmall(d, d, d, psi);
      var half := Through([p, q], psi);
      ThroughSmall(d, d, d, half);
      assert Signed(1.0, half, After(d, psi));
      assert Signed(1.0, Through([p, q], half), After(d, half));
      AfterSigned(d, 1.0, half, After(d, psi));
      EqualTrans(Through([p, q], half), After(d, half), After(d, After(d, psi)));
      ProductLaw(turn, turn, {}, qubit, psi);
      MinusIdentity(qubit, psi);
      SignedTrans(-1.0, 1.0, psi, After(minus, psi), After(d, After(d, psi)));
      SignedSym(Through([p, q], half), After(d, After(d, psi)));
      SignedTrans(-1.0, 1.0, psi, After(d, After(d, psi)), Through([p, q], half));
      assert -1.0 * 1.0 == -1.0;
    }
  }

  lemma MinusIdentity(qubit: nat, psi: State)
    ensures Signed(-1.0, psi, After(Matrix(ScaleMatrix(-1.0, IDENTITY), {}, qubit), psi))
  {
    hide Signed, After, ScaleMatrix;
    var unit: Operator := Matrix(IDENTITY, {}, qubit);
    IdentityLaw({}, qubit, psi);
    ScaledMatrixLaw(-1.0, IDENTITY, qubit, psi);
    SignedTrans(1.0, -1.0, psi, After(unit, psi), After(Matrix(ScaleMatrix(-1.0, IDENTITY), {}, qubit), psi));
    assert 1.0 * -1.0 == -1.0;
  }

  lemma AlternateTwice(trig: Trig, qubit: nat)
    requires TrigLaws(trig)
    ensures RefinesUpToPhase(trig, [], [Pulse(X, qubit), Pulse(Y, qubit), Pulse(X, qubit), Pulse(Y, qubit)])
  {
    hide TrigLaws, OperatorOf, SameThrough, Refines, Operators;
    var x, y := Gate(X, [], [qubit]), Gate(Y, [], [qubit]);
    FlipOperators(trig, qubit);
    var pair := [WithGate(x), WithGate(y)];
    TwoOperators(trig, x, y);
    OperatorsConcat(trig, pair, pair);
    NoGates(trig);
    AlternateOperators(qubit);
    RefinesByOperators(trig, -1.0, [], pair + pair);
    assert pair + pair == [Pulse(X, qubit), Pulse(Y, qubit), Pulse(X, qubit), Pulse(Y, qubit)];
    assert IsSign(-1.0);
  }

  lemma InsertUpToPhase(trig: Trig, left: seq<Operation>, block: seq<Operation>, right: seq<Operation>)
    requires RefinesUpToPhase(trig, [], block)
    ensures RefinesUpToPhase(trig, left + right, left + block + right)
  {
    hide Refines;
    var s: real :| IsSign(s) && Refines(trig, s, [], block);
    RefinesInContext(trig, s, left, [], block, right);
    assert left + [] + right == left + right;
  }

  lemma {:induction false} BlockDoesNothing(trig: Trig, sequence: Sequence, qubits: seq<nat>)
    requires TrigLaws(trig)
    ensures RefinesUpToPhase(trig, [], PulseBlock(PulseNames(sequence), qubits))
  {
    hide TrigLaws, RefinesUpToPhase, PulseNames;
    if |qubits| == 0 {
      PhaseRefl(trig, []);
    } else {
      var front, last := qubits[..|qubits| - 1], qubits[|qubits| - 1];
      var block, pulses := PulseBlock(PulseNames(sequence), front), Pulses(PulseNames(sequence), last);
      BlockDoesNothing(trig, sequence, front);
      SequenceDoesNothing(trig, sequence, last);
      InsertUpToPhase(trig, block, pulses, []);
      assert block + [] == block && block + pulses + [] == block + pulses;
      PhaseTrans(trig, [], block, block + pulses);
    }
  }

  /** The decoupled circuit computes what the circuit computes, up to global phase, conditionals included. */
  lemma {:induction false} DecouplingKeepsMeaning(trig: Trig, operations: seq<Operation>, sequence: Sequence, n: nat)
    requires TrigLaws(trig) && n <= |operations|
    ensures RefinesUpToPhase(trig, operations[..n], Decoupled(operations, PulseNames(sequence), n))
    decreases n
  {
    hide TrigLaws, RefinesUpToPhase, PulseNames, PulsesBefore;
    if n == 0 {
      PhaseRefl(trig, []);
      assert operations[..0] == [];
    } else {
      var names, last := PulseNames(sequence), [operations[n - 1]];
      DecoupledStep(operations, names, n);
      hide Decoupled;
      var before, block := Decoupled(operations, names, n - 1), PulsesBefore(operations, names, n - 1);
      DecouplingKeepsMeaning(trig, operations, sequence, n - 1);
      BlockUpToPhase(trig, operations, sequence, n - 1);
      InsertUpToPhase(trig, operations[..n - 1], block, last);
      AppendUpToPhase(trig, operations[..n - 1], before, block + last);
      assert operations[..n] == operations[..n - 1] + last;
      assert operations[..n - 1] + block + last == operations[..n - 1] + (block + last);
      assert before + (block + last) == Decoupled(operations, names, n);
      PhaseTrans(trig, operations[..n], operations[..n - 1] + block + last, Decoupled(operations, names, n));
    }
  }

  lemma BlockUpToPhase(trig: Trig, operations: seq<Operation>, sequence: Sequence, n: nat)
    requires TrigLaws(trig) && n < |operations|
    ensures RefinesUpToPhase(trig, [], PulsesBefore(operations, PulseNames(sequence), n))
  {
    hide TrigLaws, RefinesUpToPhase, PulseNames, LayerAt, TopLayer, Windows;
    if LayerAt(operations, n) > TopLayer(operations, n) {
      BlockDoesNothing(trig, sequence, Windows(operations, LayerAt(operations, n)));
    } else {
      PhaseRefl(trig, []);
    }
  }

  lemma AppendUpToPhase(trig: Trig, before: seq<Operation>, after: seq<Operation>, right: seq<Operation>)
    requires RefinesUpToPhase(trig, before, after)
    ensures RefinesUpToPhase(trig, before + right, after + right)
  {
    hide Refines;
    var s: real :| IsSign(s) && Refines(trig, s, before, after);
    RefinesInContext(trig, s, [], before, after, right);
    assert [] + before + right == before + right && [] + after + right == after + right;
  }

  // ---------------------------------------------------------------- every window once, and nothing lost

  lemma {:induction false} BlockLength(names: seq<GateName>, qubits: seq<nat>)
    ensures |PulseBlock(names, qubits)| == |names| * |qubits|
  {
    if |qubits| > 0 {
      BlockLength(names, qubits[..|qubits| - 1]);
      assert |names| * |qubits| == |names| * (|qubits| - 1) + |names|;
    }
  }

  /** Layers are entered one at a time, so every window is filled exactly once. */
  lemma {:induction false} EveryWindowOnce(operations: seq<Operation>, names: seq<GateName>, n: nat)
    requires n <= |operations|
    ensures |Decoupled(operations, names, n)| == n + |names| * WindowCount(operations, TopLayer(operations, n))
    decreases n
  {
    hide LayerAt, Windows, Decoupled, PulsesBefore, WindowCount;
    if n == 0 {
      NothingEmitted(operations, names);
    } else {
      EveryWindowOnce(operations, names, n - 1);
      DecoupledStep(operations, names, n);
      PulsesCounted(operations, names, n - 1);
    }
  }

  /** The pulses in front of an operation are those of the windows its layer adds. */
  lemma PulsesCounted(operations: seq<Operation>, names: seq<GateName>, n: nat)
    requires n < |operations|
    ensures |names| * WindowCount(operations, TopLayer(operations, n)) + |PulsesBefore(operations, names, n)|
         == |names| * WindowCount(operations, TopLayer(operations, n + 1))
  {
    hide LayerAt, Windows, PulseBlock;
    TopStep(operations, n);
    TopRisesByOne(operations, n);
    var layer := LayerAt(operations, n);
    hide TopLayer;
    if layer > TopLayer(operations, n) {
      BlockLength(names, Windows(operations, layer));
      MoreWindows(|names|, WindowCount(operations, layer - 1), |Windows(operations, layer)|,
                  WindowCount(operations, layer));
    }
  }

  lemma MoreWindows(k: nat, m: nat, w: nat, sum: nat)
    requires sum == m + w
    ensures k * sum == k * m + k * w
  {
  }

  /** Which operations of the output are pulses. */
  ghost function Marks(operations: seq<Operation>, names: seq<GateName>, n: nat): (marks: seq<bool>)
    requires n <= |operations|
    ensures |marks| == |Decoupled(operations, names, n)|
  {
    if n == 0 then []
    else
      Marks(operations, names, n - 1) + seq(|PulsesBefore(operations, names, n - 1)|, (i: nat) => true) + [false]
  }

  lemma MarksStep(operations: seq<Operation>, names: seq<GateName>, n: nat)
    requires 0 < n <= |operations|
    ensures Marks(operations, names, n)
         == Marks(operations, names, n - 1) + seq(|PulsesBefore(operations, names, n - 1)|, (i: nat) => true) + [false]
  {
    hide PulsesBefore;
  }

  /** What is left when the marked operations are taken out. */
  function Unmarked(operations: seq<Operation>, marks: seq<bool>): seq<Operation>
    requires |operations| == |marks|
  {
    if |operations| == 0 then []
    else
      var n := |operations| - 1;
      Unmarked(operations[..n], marks[..n]) + (if marks[n] then [] else [operations[n]])
  }

  lemma {:induction false} UnmarkedConcat(p: seq<Operation>, q: seq<Operation>, marks: seq<bool>, more: seq<bool>)
    requires |p| == |marks| && |q| == |more|
    ensures Unmarked(p + q, marks + more) == Unmarked(p, marks) + Unmarked(q, more)
    decreases |q|
  {
    if |q| == 0 {
      assert p + q == p && marks + more == marks;
    } else {
      var n := |q| - 1;
      assert (p + q)[..|p + q| - 1] == p + q[..n] && (marks + more)[..|p + q| - 1] == marks + more[..n];
      UnmarkedConcat(p, q[..n], marks, more[..n]);
    }
  }

  lemma {:induction false} AllMarked(p: seq<Operation>, marks: seq<bool>)
    requires |p| == |marks| && forall i :: 0 <= i < |marks| ==> marks[i]
    ensures Unmarked(p, marks) == []
  {
    if |p| > 0 { AllMarked(p[..|p| - 1], marks[..|p| - 1]); }
  }

  /** Erasing the pulses restores the circuit. */
  lemma {:induction false} ErasingRestores(operations: seq<Operation>, names: seq<GateName>, n: nat)
    requires n <= |operations|
    ensures Unmarked(Decoupled(operations, names, n), Marks(operations, names, n)) == operations[..n]
    decreases n
  {
    hide PulsesBefore;
    if n > 0 {
      ErasingRestores(operations, names, n - 1);
      DecoupledStep(operations, names, n);
      MarksStep(operations, names, n);
      hide Decoupled, Marks, Unmarked;
      UnmarkedParts(Decoupled(operations, names, n - 1), PulsesBefore(operations, names, n - 1), operations[n - 1],
                    Marks(operations, names, n - 1));
      assert operations[..n] == operations[..n - 1] + [operations[n - 1]];
    }
  }

  lemma UnmarkedParts(before: seq<Operation>, block: seq<Operation>, last: Operation, marks: seq<bool>)
    requires |before| == |marks|
    ensures Unmarked(before + block + [last], marks + seq(|block|, (i: nat) => true) + [false])
         == Unmarked(before, marks) + [last]
  {
    hide Unmarked;
    var pulses := seq(|block|, (i: nat) => true);
    UnmarkedConcat(before + block, [last], marks + pulses, [false]);
    UnmarkedConcat(before, block, marks, pulses);
    AllMarked(block, pulses);
    KeptOne([last]);
    assert Unmarked(before, marks) + [] == Unmarked(before, marks);
  }

  lemma KeptOne(last: seq<Operation>)
    requires |last| == 1
    ensures Unmarked(last, [false]) == last
  {
    assert last[..0] == [];
  }

  // ---------------------------------------------------------------- no pulse after a collapse

  /** A measurement or reset of the qubit. */
  predicate IsCollapse(operation: Operation, q: nat) {
    !IsGate(operation) && q in TouchedQubits(operation)
  }

  /** No marked pulse stands behind an unmarked measurement or reset of its qubit. */
  ghost predicate NoPulseAfterCollapse(operations: seq<Operation>, marks: seq<bool>)
    requires |operations| == |marks|
  {
    forall i, j, q :: 0 <= i < j < |operations| && !marks[i] && marks[j] && IsCollapse(operations[i], q) ==>
      q !in TouchedQubits(operations[j])
  }

  lemma {:induction false} BlockQubits(names: seq<GateName>, qubits: seq<nat>)
    ensures forall i, q :: 0 <= i < |PulseBlock(names, qubits)| && q in TouchedQubits(PulseBlock(names, qubits)[i]) ==>
      q in qubits
  {
    if |qubits| > 0 {
      var front := qubits[..|qubits| - 1];
      BlockQubits(names, front);
      assert forall x :: x in front ==> x in qubits;
    }
  }

  lemma {:induction false} WindowsAreWindows(operations: seq<Operation>, layer: nat, qubits: seq<nat>)
    ensures forall q :: q in WindowsAmong(operations, layer, qubits) <==> q in qubits && IsWindow(operations, layer, q)
  {
    hide IsWindow;
    if |qubits| > 0 {
      WindowsAreWindows(operations, layer, qubits[..|qubits| - 1]);
      assert forall x :: x in qubits <==> x in qubits[..|qubits| - 1] || x == qubits[|qubits| - 1];
    }
  }

  lemma {:induction false} LayersBelowTop(operations: seq<Operation>, i: nat, n: nat)
    requires i < n <= |operations|
    ensures LayerAt(operations, i) <= TopLayer(operations, n)
    decreases n
  {
    hide LayerAt;
    if i < n - 1 { LayersBelowTop(operations, i, n - 1); }
  }

  /** The pulses of a layer avoid every qubit that an earlier operation has measured or reset. */
  lemma PulsesAvoidCollapsed(operations: seq<Operation>, names: seq<GateName>, n: nat, i: nat, q: nat, k: nat)
    requires n < |operations| && i < n && !IsGate(operations[i]) && q in TouchedQubits(operations[i])
    requires k < |PulsesBefore(operations, names, n)|
    ensures q !in TouchedQubits(PulsesBefore(operations, names, n)[k])
  {
    hide LayerAt, TopLayer;
    var layer := LayerAt(operations, n);
    BlockQubits(names, Windows(operations, layer));
    WindowsAreWindows(operations, layer, QubitsUpto(operations, |operations|));
    LayersBelowTop(operations, i, n);
    assert layer > TopLayer(operations, n);
    assert IsCollapsed(operations, |operations|, layer, q);
    assert !IsWindow(operations, layer, q);
  }

  /** The unmarked operations of the output come from the circuit, in its first n places. */
  lemma {:induction false} UnmarkedComesFrom(
    operations: seq<Operation>, names: seq<GateName>, n: nat, i: nat)
    returns (j: nat)
    requires n <= |operations| && i < |Decoupled(operations, names, n)| && !Marks(operations, names, n)[i]
    ensures j < n && operations[j] == Decoupled(operations, names, n)[i]
    decreases n
  {
    hide PulsesBefore;
    DecoupledStep(operations, names, n);
    MarksStep(operations, names, n);
    var before := |Decoupled(operations, names, n - 1)|;
    if i < before {
      j := UnmarkedComesFrom(operations, names, n - 1, i);
    } else {
      j := n - 1;
    }
  }

  /** A pulse never acts on a collapsed qubit. */
  lemma {:induction false} PulsesPrecedeCollapse(operations: seq<Operation>, names: seq<GateName>, n: nat)
    requires n <= |operations|
    ensures NoPulseAfterCollapse(Decoupled(operations, names, n), Marks(operations, names, n))
    decreases n
  {
    hide PulsesBefore;
    if n > 0 {
      PulsesPrecedeCollapse(operations, names, n - 1);
      DecoupledStep(operations, names, n);
      MarksStep(operations, names, n);
      var output, marks := Decoupled(operations, names, n), Marks(operations, names, n);
      var before, block := Decoupled(operations, names, n - 1), PulsesBefore(operations, names, n - 1);
      forall i, j, q | 0 <= i < j < |output| && !marks[i] && marks[j] && IsCollapse(output[i], q)
        ensures q !in TouchedQubits(output[j])
      {
        if j >= |before| {
          var source := UnmarkedComesFrom(operations, names, n - 1, i);
          PulsesAvoidCollapsed(operations, names, n - 1, source, q, j - |before|);
        } else {
          assert before[i] == output[i] && before[j] == output[j];
        }
      }
    }
  }

  // ---------------------------------------------------------------- the four passes

  method NoteQubits(known: seq<nat>, qubits: seq<nat>) returns (all: seq<nat>)
    ensures all == WithNew(known, qubits)
  {
    all := known;
    for i := 0 to |qubits|
      invariant all == WithNew(known, qubits[..i])
    {
      assert qubits[..i + 1][..i] == qubits[..i];
      if qubits[i] !in all { all := all + [qubits[i]]; }
    }
    assert qubits[..|qubits|] == qubits;
  }

  /** Layer the circuit, noting its qubits as they come. */
  method AssignLayers(operations: seq<Operation>) returns (layers: seq<nat>, qubits: seq<nat>)
    ensures |layers| == |operations| && forall i :: 0 <= i < |layers| ==> layers[i] == LayerAt(operations, i)
    ensures qubits == QubitsUpto(operations, |operations|)
  {
    hide WithNew, MaxFront, Raise;
    var layerOf: map<nat, nat> := map[];
    layers := [];
    qubits := [];
    for i := 0 to |operations|
      invariant |layers| == i && forall j :: 0 <= j < i ==> layers[j] == LayerAt(operations, j)
      invariant layerOf == Front(operations[..i]) && qubits == QubitsUpto(operations, i)
    {
      assert operations[..i + 1][..i] == operations[..i];
      var bits := TouchedQubits(operations[i]);
      qubits := NoteQubits(qubits, bits);
      if |bits| == 0 {
        layers := layers + [0];
      } else {
        var max := MaxOf(bits, layerOf);
        layerOf := SetAll(layerOf, bits, max + 1);
        layers := layers + [max + 1];
      }
    }
    assert operations[..|operations|] == operations;
  }

  predicate InUse(busy: map<nat, set<nat>>, layer: nat, q: nat) {
    layer in busy && q in busy[layer]
  }

  predicate StopsBefore(stops: map<nat, nat>, layer: nat, q: nat) {
    q in stops && stops[q] < layer
  }

  /** Which qubits are in use in which layer. */
  method BusyLayers(operations: seq<Operation>, layers: seq<nat>) returns (busy: map<nat, set<nat>>)
    requires |layers| == |operations| && forall i :: 0 <= i < |layers| ==> layers[i] == LayerAt(operations, i)
    ensures forall layer, q :: InUse(busy, layer, q) <==> layer > 0 && IsBusy(operations, |operations|, layer, q)
  {
    hide LayerAt;
    busy := map[];
    for i := 0 to |operations|
      invariant forall layer, q :: InUse(busy, layer, q) <==> layer > 0 && IsBusy(operations, i, layer, q)
    {
      ghost var before := busy;
      var layer := layers[i];
      if layer > 0 {
        var bits := TouchedQubits(operations[i]);
        var known := if layer in busy then busy[layer] else {};
        busy := busy[layer := known + set q | q in bits];
      }
      forall l: nat, q: nat ensures InUse(busy, l, q) <==> l > 0 && IsBusy(operations, i + 1, l, q) {
        assert InUse(before, l, q) <==> l > 0 && IsBusy(operations, i, l, q);
        BusyStep(operations, i, l, q);
      }
    }
  }

  lemma BusyStep(operations: seq<Operation>, n: nat, layer: nat, q: nat)
    requires n < |operations|
    ensures IsBusy(operations, n + 1, layer, q)
       <==> IsBusy(operations, n, layer, q) || (q in TouchedQubits(operations[n]) && LayerAt(operations, n) == layer)
  {
    hide LayerAt;
  }

  lemma CollapsedStep(operations: seq<Operation>, n: nat, layer: nat, q: nat)
    requires n < |operations|
    ensures IsCollapsed(operations, n + 1, layer, q)
       <==> IsCollapsed(operations, n, layer, q) || (IsCollapse(operations[n], q) && LayerAt(operations, n) < layer)
  {
    hide LayerAt;
  }

  /** The first layer in which each qubit is measured or reset. */
  method FirstCollapses(operations: seq<Operation>, layers: seq<nat>) returns (stops: map<nat, nat>)
    requires |layers| == |operations| && forall i :: 0 <= i < |layers| ==> layers[i] == LayerAt(operations, i)
    ensures forall layer, q :: StopsBefore(stops, layer, q) <==> IsCollapsed(operations, |operations|, layer, q)
  {
    hide LayerAt, IsCollapsed;
    stops := map[];
    forall layer, q ensures StopsBefore(stops, layer, q) <==> IsCollapsed(operations, 0, layer, q) {
      NothingCollapsed(operations, layer, q);
    }
    for i := 0 to |operations|
      invariant forall layer, q :: StopsBefore(stops, layer, q) <==> IsCollapsed(operations, i, layer, q)
    {
      ghost var before := stops;
      match operations[i] {
        case Plain(Measure(qubit, _)) =>
          stops := stops[qubit := if qubit in stops && stops[qubit] < layers[i] then stops[qubit] else layers[i]];
        case Plain(Reset(qubit)) =>
          stops := stops[qubit := if qubit in stops && stops[qubit] < layers[i] then stops[qubit] else layers[i]];
        case _ =>
      }
      forall layer, q ensures StopsBefore(stops, layer, q) <==> IsCollapsed(operations, i + 1, layer, q) {
        assert StopsBefore(before, layer, q) <==> IsCollapsed(operations, i, layer, q);
        CollapsedStep(operations, i, layer, q);
      }
    }
  }

  lemma NothingCollapsed(operations: seq<Operation>, layer: nat, q: nat)
    ensures !IsCollapsed(operations, 0, layer, q)
  {
  }

  /** The layer in which a qubit is first used. */
  method FirstUse(operations: seq<Operation>, layers: seq<nat>, q: nat) returns (first: Option<nat>)
    requires |layers| == |operations| && forall i :: 0 <= i < |layers| ==> layers[i] == LayerAt(operations, i)
    ensures forall layer: nat ::
      (first.Some? && first.value <= layer) <==> HasEntered(operations, |operations|, layer, q)
  {
    hide LayerAt;
    for i := 0 to |operations|
      invariant forall j :: 0 <= j < i ==> q !in TouchedQubits(operations[j])
    {
      if q in TouchedQubits(operations[i]) {
        forall layer: nat ensures layers[i] <= layer <==> HasEntered(operations, |operations|, layer, q) {
          EnteredAtFirst(operations, i, layer, q);
        }
        return Some(layers[i]);
      }
    }
    return None;
  }

  lemma EnteredAtFirst(operations: seq<Operation>, i: nat, layer: nat, q: nat)
    requires i < |operations| && q in TouchedQubits(operations[i])
    requires forall j :: 0 <= j < i ==> q !in TouchedQubits(operations[j])
    ensures LayerAt(operations, i) <= layer <==> HasEntered(operations, |operations|, layer, q)
  {
    hide LayerAt;
    forall j: nat | j < |operations| && q in TouchedQubits(operations[j])
      ensures LayerAt(operations, i) <= LayerAt(operations, j)
    {
      if i < j {
        FrontKeepsUp(operations, i, j, q);
        LayerAboveFront(operations, j, q);
      }
    }
  }

  /** The idle qubits of one layer. */
  method IdleIn(
    operations: seq<Operation>, layers: seq<nat>, qubits: seq<nat>,
    busy: map<nat, set<nat>>, stops: map<nat, nat>, layer: nat)
    returns (idle: seq<nat>)
    requires |layers| == |operations| && forall i :: 0 <= i < |layers| ==> layers[i] == LayerAt(operations, i)
    requires forall l: nat, q: nat :: InUse(busy, l, q) <==> l > 0 && IsBusy(operations, |operations|, l, q)
    requires forall l: nat, q: nat :: StopsBefore(stops, l, q) <==> IsCollapsed(operations, |operations|, l, q)
    requires layer > 0
    ensures idle == WindowsAmong(operations, layer, qubits)
  {
    hide LayerAt, InUse, StopsBefore, IsBusy, IsCollapsed, HasEntered;
    idle := [];
    for i := 0 to |qubits|
      invariant idle == WindowsAmong(operations, layer, qubits[..i])
    {
      assert qubits[..i + 1][..i] == qubits[..i];
      var q := qubits[i];
      var first := FirstUse(operations, layers, q);
      var entered := first.Some? && first.value <= layer;
      assert entered <==> HasEntered(operations, |operations|, layer, q);
      if !InUse(busy, layer, q) && !StopsBefore(stops, layer, q) && entered {
        idle := idle + [q];
      }
    }
    assert qubits[..|qubits|] == qubits;
  }

  /** The highest layer. */
  method MaxLayer(operations: seq<Operation>, layers: seq<nat>) returns (top: nat)
    requires |layers| == |operations| && forall i :: 0 <= i < |layers| ==> layers[i] == LayerAt(operations, i)
    ensures top == TopLayer(operations, |operations|)
  {
    hide LayerAt;
    top := 0;
    for i := 0 to |operations|
      invariant top == TopLayer(operations, i)
    {
      if layers[i] > top { top := layers[i]; }
    }
  }

  /** Every layer up to the top is in use. */
  lemma {:induction false} LayerIsBusy(operations: seq<Operation>, layer: nat, n: nat) returns (q: nat)
    requires n <= |operations| && 1 <= layer <= TopLayer(operations, n)
    ensures IsBusy(operations, |operations|, layer, q)
    decreases n
  {
    hide LayerAt;
    if layer <= TopLayer(operations, n - 1) {
      q := LayerIsBusy(operations, layer, n - 1);
    } else {
      TopRisesByOne(operations, n - 1);
      TouchedWhenLayered(operations, n - 1);
      q := TouchedQubits(operations[n - 1])[0];
      assert q in TouchedQubits(operations[n - 1]);
    }
  }

  /** The idle windows of every layer. */
  method FindWindows(operations: seq<Operation>) returns (layers: seq<nat>, inserts: map<nat, seq<nat>>, windows: nat)
    ensures |layers| == |operations| && forall i :: 0 <= i < |layers| ==> layers[i] == LayerAt(operations, i)
    ensures forall l: nat :: 1 <= l <= TopLayer(operations, |operations|) ==>
      l in inserts && inserts[l] == Windows(operations, l)
    ensures windows == WindowCount(operations, TopLayer(operations, |operations|))
  {
    hide LayerAt, InUse, StopsBefore, TopLayer, IsBusy, IsCollapsed;
    var qubits;
    layers, qubits := AssignLayers(operations);
    var busy := BusyLayers(operations, layers);
    var stops := FirstCollapses(operations, layers);
    var top := MaxLayer(operations, layers);
    inserts := map[];
    windows := 0;
    for layer := 1 to top + 1
      invariant forall l: nat :: 1 <= l < layer ==> l in inserts && inserts[l] == Windows(operations, l)
      invariant windows == WindowCount(operations, layer - 1)
    {
      var occupant := LayerIsBusy(operations, layer, |operations|);
      SomeoneBusy(busy, layer, occupant);
      if layer in busy && busy[layer] != {} {
        var idle := IdleIn(operations, layers, qubits, busy, stops, layer);
        WindowsOf(operations, layer);
        inserts := inserts[layer := idle];
        windows := windows + |idle|;
      }
    }
  }

  lemma SomeoneBusy(busy: map<nat, set<nat>>, layer: nat, q: nat)
    requires InUse(busy, layer, q)
    ensures layer in busy && busy[layer] != {}
  {
  }

  /**
   * Layer the circuit, find the idle windows, and insert the sequence in front of the first operation of each layer.
   */
  method ApplyDynamicalDecoupling(operations: seq<Operation>, sequence: Sequence)
    returns (decoupled: seq<Operation>, windows: nat, emitted: nat)
    ensures decoupled == Decoupled(operations, PulseNames(sequence), |operations|)
    ensures windows == WindowCount(operations, TopLayer(operations, |operations|))
    ensures emitted == |PulseNames(sequence)| * windows
  {
    hide LayerAt, Windows, PulseBlock, WindowCount, PulseNames, Decoupled, TopLayer;
    var names := PulseNames(sequence);
    var layers, inserts;
    layers, inserts, windows := FindWindows(operations);
    decoupled := [];
    var current := 0;
    emitted := 0;
    NothingEmitted(operations, names);
    for i := 0 to |operations|
      invariant current == TopLayer(operations, i) && emitted + i == |decoupled|
      invariant decoupled == Decoupled(operations, names, i)
    {
      LayersBelowTop(operations, i, |operations|);
      TopStep(operations, i);
      DecoupledStep(operations, names, i + 1);
      if layers[i] > current {
        var block := Insert(names, inserts[layers[i]]);
        decoupled := decoupled + block;
        emitted := emitted + |block|;
        current := layers[i];
      } else {
        assert decoupled + [] == decoupled;
      }
      decoupled := decoupled + [operations[i]];
    }
    EveryWindowOnce(operations, names, |operations|);
  }

  lemma NothingEmitted(operations: seq<Operation>, names: seq<GateName>)
    ensures Decoupled(operations, names, 0) == [] && TopLayer(operations, 0) == 0 && WindowCount(operations, 0) == 0
  {
  }

  lemma TopStep(operations: seq<Operation>, n: nat)
    requires n < |operations|
    ensures TopLayer(operations, n + 1)
         == if LayerAt(operations, n) > TopLayer(operations, n) then LayerAt(operations, n) else TopLayer(operations, n)
  {
    hide LayerAt;
  }

  lemma WindowsOf(operations: seq<Operation>, layer: nat)
    ensures Windows(operations, layer) == WindowsAmong(operations, layer, QubitsUpto(operations, |operations|))
  {
  }

  method Insert(names: seq<GateName>, qubits: seq<nat>) returns (block: seq<Operation>)
    ensures block == PulseBlock(names, qubits) && |block| == |names| * |qubits|
  {
    block := [];
    for i := 0 to |qubits|
      invariant block == PulseBlock(names, qubits[..i])
    {
      assert qubits[..i + 1][..i] == qubits[..i];
      for j := 0 to |names|
        invariant block == PulseBlock(names, qubits[..i]) + Pulses(names, qubits[i])[..j]
      {
        block := block + [Pulse(names[j], qubits[i])];
      }
      assert Pulses(names, qubits[i])[..|names|] == Pulses(names, qubits[i]);
    }
    assert qubits[..|qubits|] == qubits;
    BlockLength(names, qubits);
  }
}
