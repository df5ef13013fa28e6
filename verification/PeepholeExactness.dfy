/** Exactly when a rewrite of the peephole optimizer keeps what a circuit computes (src/engine/zx.ts:191-350). */
module PeepholeExactness {
  import opened Options
  import opened Circuits
  import opened ComplexNumbers
  import opened Semantics
  import opened OperatorLaws
  import opened GateLaws
  import opened PeepholeRules
  import opened Refinement
  import opened PeepholeSoundness
  import opened PeepholeSteps
  import opened PeepholeLimits
  import opened GateUnitarity
  import opened Phases

  /** A circuit of gates on distinct operands that the engine runs. */
  predicate IsRunnable(trig: Trig, operations: seq<Operation>) {
    AllGates(operations) && AllDistinct(operations) && Operators(trig, operations).Some?
  }

  lemma {:induction false} PartsRunnable(trig: Trig, first: seq<Operation>, second: seq<Operation>)
    ensures IsRunnable(trig, first + second) <==> IsRunnable(trig, first) && IsRunnable(trig, second)
  {
    hide OperatorOf, Operators, IsGate, DistinctQubits;
    var all := first + second;
    if AllGates(all) {
      forall i | 0 <= i < |first| ensures IsGate(first[i]) { assert all[i] == first[i]; }
      forall i | 0 <= i < |second| ensures IsGate(second[i]) { assert all[|first| + i] == second[i]; }
    }
    if AllGates(first) && AllGates(second) {
      OperatorsConcat(trig, first, second);
      if AllDistinct(all) {
        forall i | 0 <= i < |first| ensures DistinctQubits(GateOf(first[i]).qubits) { assert all[i] == first[i]; }
        forall i | 0 <= i < |second| ensures DistinctQubits(GateOf(second[i]).qubits) {
          assert all[|first| + i] == second[i];
        }
      }
    }
  }

  /** Between runnable contexts, a block may replace another up to a factor only if it may on its own. */
  lemma OutOfContext(
    trig: Trig, left: seq<Operation>, before: seq<Operation>, after: seq<Operation>, right: seq<Operation>)
    requires TrigLaws(trig) && UnitCircle(trig)
    requires IsRunnable(trig, left + before + right) && IsRunnable(trig, left + after + right)
    requires RefinesUpToFactors(trig, left + before + right, left + after + right)
    ensures IsRunnable(trig, before) && IsRunnable(trig, after)
    ensures ParallelThrough(Operators(trig, before).value, Operators(trig, after).value)
  {
    hide RefinesUpToFactors, ParallelThrough, Operators, TrigLaws, UnitCircle;
    PartsRunnable(trig, left + before, right);
    PartsRunnable(trig, left, before);
    PartsRunnable(trig, left + after, right);
    PartsRunnable(trig, left, after);
    OperatorsByFactors(trig, left + before + right, left + after + right);
    OperatorsConcat(trig, left + before, right);
    OperatorsConcat(trig, left, before);
    OperatorsConcat(trig, left + after, right);
    OperatorsConcat(trig, left, after);
    var l, r := Operators(trig, left).value, Operators(trig, right).value;
    var undoLeft := GatesUndone(trig, left);
    var undoRight := GatesUndone(trig, right);
    CancelContext(l, Operators(trig, before).value, Operators(trig, after).value, r, undoLeft, undoRight);
  }

  /** The gates a fusion takes together, gathered at the place of the first. */
  lemma GatheredBack(trig: Trig, operations: seq<Operation>, i: nat, j: nat)
    requires i < j < |operations| && IsGate(operations[i]) && IsGate(operations[j])
    requires forall m :: i < m < j ==> Slides(trig, operations[m], GateOf(operations[j]))
    ensures Refines(trig, 1.0,
                    operations[..i] + [operations[i], operations[j]] + (operations[i + 1..j] + operations[j + 1..]),
                    operations)
  {
    hide Refines, Slides, IsGate, GateOf;
    var left, block, right := operations[..i + 1], operations[i + 1..j], operations[j + 1..];
    var gate := GateOf(operations[j]);
    var g := [WithGate(gate)];
    assert g == [operations[j]] by { GateIsItself(operations[j]); }
    forall m | 0 <= m < |block| ensures Slides(trig, block[m], gate) { assert block[m] == operations[i + 1 + m]; }
    Slide(trig, block, gate);
    RefinesInContext(trig, 1.0, left, g + block, block + g, right);
    assert left + (block + g) + right == operations;
    assert left + (g + block) + right
        == operations[..i] + [operations[i], operations[j]] + (block + right);
  }

  lemma RunnableAt(trig: Trig, operations: seq<Operation>, i: nat)
    requires IsRunnable(trig, operations) && i < |operations|
    ensures IsRunnable(trig, operations[..i]) && IsRunnable(trig, operations[i..i + 1])
      && IsRunnable(trig, operations[i + 1..])
  {
    hide IsRunnable;
    assert operations[..i] + operations[i..i + 1] + operations[i + 1..] == operations;
    PartsRunnable(trig, operations[..i] + operations[i..i + 1], operations[i + 1..]);
    PartsRunnable(trig, operations[..i], operations[i..i + 1]);
  }

  /** Cutting a runnable circuit at two positions leaves runnable pieces. */
  lemma RunnablePieces(trig: Trig, operations: seq<Operation>, i: nat, j: nat)
    requires IsRunnable(trig, operations) && i < j < |operations|
    ensures IsRunnable(trig, operations[..i]) && IsRunnable(trig, operations[i + 1..j] + operations[j + 1..])
    ensures IsRunnable(trig, [operations[i], operations[j]])
  {
    hide IsRunnable;
    RunnableAt(trig, operations, i);
    var rest, m := operations[i + 1..], j - i - 1;
    RunnableAt(trig, rest, m);
    assert rest[..m] == operations[i + 1..j] && rest[m + 1..] == operations[j + 1..];
    assert rest[m..m + 1] == [operations[j]] && operations[i..i + 1] == [operations[i]];
    PartsRunnable(trig, operations[i + 1..j], operations[j + 1..]);
    PartsRunnable(trig, [operations[i]], [operations[j]]);
    assert [operations[i]] + [operations[j]] == [operations[i], operations[j]];
  }

  lemma FusedRunnable(trig: Trig, gate: Gate, total: real)
    requires |gate.qubits| == 1 && IsFixedName(gate.name) && HasAngle(gate)
    ensures IsRunnable(trig, []) && IsRunnable(trig, [WithGate(Rotated(gate, total))])
  {
    hide OperatorOf;
    FixedOperator(trig, Rotated(gate, total));
    OneOperator(trig, Rotated(gate, total));
  }

  /** What a fusion puts in the place of its two gates. */
  function FusedGates(pi: real, gate: Gate, other: Gate): seq<Operation>
    requires pi > 0.0 && HasAngle(gate) && HasAngle(other)
  {
    var total := NormalizeAngle(pi, gate.parameters[0].angle + other.parameters[0].angle);
    if total == 0.0 then [] else [WithGate(Rotated(gate, total))]
  }

  lemma FusionShape(pi: real, operations: seq<Operation>, i: nat, j: nat)
    requires pi > 0.0 && Enabled(pi, operations, FuseAcross(i, j))
    ensures Rewritten(pi, operations, FuseAcross(i, j))
         == operations[..i] + FusedGates(pi, GateOf(operations[i]), GateOf(operations[j]))
            + (operations[i + 1..j] + operations[j + 1..])
  {
    hide NormalizeAngle, Reaches;
  }

  lemma FixedNames(gate: Gate)
    requires RotationAxis(gate.name).Some? && !IsRotation(gate.name)
    ensures IsFixedName(gate.name)
  {
  }

  /** The rewriting with the gates gathered: only the pair differs. */
  lemma GatheredRewriting(
    trig: Trig, left: seq<Operation>, gate: Gate, other: Gate, right: seq<Operation>, whole: seq<Operation>)
    requires TrigLaws(trig) && UnitCircle(trig) && trig.pi > 0.0
    requires RotationAxis(gate.name).Some? && !IsRotation(gate.name) && |gate.qubits| == 1
    requires HasAngle(gate) && HasAngle(other) && other.name == gate.name && other.qubits == gate.qubits
    requires IsRunnable(trig, left) && IsRunnable(trig, right)
    requires Refines(trig, 1.0, left + [WithGate(gate), WithGate(other)] + right, whole)
    requires RefinesUpToFactors(trig, whole, left + FusedGates(trig.pi, gate, other) + right)
    ensures NormalizeAngle(trig.pi, gate.parameters[0].angle + other.parameters[0].angle) == 0.0 && gate.name in {Z, X}
  {
    hide RefinesUpToFactors, ParallelThrough, NormalizeAngle, TrigLaws, UnitCircle, IsRunnable, Refines,
         SingleQubitMatrix;
    var total := NormalizeAngle(trig.pi, gate.parameters[0].angle + other.parameters[0].angle);
    var pair, after := [WithGate(gate), WithGate(other)], FusedGates(trig.pi, gate, other);
    FixedNames(gate);
    FactorsAfterExact(trig, left + pair + right, whole, left + after + right);
    FusedRunnable(trig, gate, total);
    PairRunnable(trig, gate, other);
    PartsRunnable(trig, left, pair);
    PartsRunnable(trig, left + pair, right);
    PartsRunnable(trig, left, after);
    PartsRunnable(trig, left + after, right);
    OutOfContext(trig, left, pair, after, right);
    PairOperators(trig, gate, other, total);
    FixedPairDiffers(trig, gate.name, gate.qubits[0], total == 0.0);
  }

  /** The operators of the pair and of what it is fused into. */
  lemma PairOperators(trig: Trig, gate: Gate, other: Gate, total: real)
    requires |gate.qubits| == 1 && IsFixedName(gate.name) && HasAngle(gate) && HasAngle(other)
    requires other.name == gate.name && other.qubits == gate.qubits
    ensures SingleQubitMatrix(trig, gate.name, []).Some?
    ensures var p: Operator := Matrix(SingleQubitMatrix(trig, gate.name, []).value, {}, gate.qubits[0]);
      && Operators(trig, [WithGate(gate), WithGate(other)]) == Some([p, p])
      && Operators(trig, [WithGate(Rotated(gate, total))]) == Some([p]) && Operators(trig, []) == Some([])
  {
    hide OperatorOf, SingleQubitMatrix, Operators;
    FixedOperator(trig, gate);
    FixedOperator(trig, other);
    FixedOperator(trig, Rotated(gate, total));
    TwoOperators(trig, gate, other);
    OneOperator(trig, Rotated(gate, total));
    NoOperators(trig);
  }

  lemma PairRunnable(trig: Trig, gate: Gate, other: Gate)
    requires |gate.qubits| == 1 && IsFixedName(gate.name) && HasAngle(gate) && HasAngle(other)
    requires other.name == gate.name && other.qubits == gate.qubits
    ensures IsRunnable(trig, [WithGate(gate), WithGate(other)])
  {
    hide OperatorOf;
    FixedOperator(trig, gate);
    FixedOperator(trig, other);
    TwoOperators(trig, gate, other);
  }

  /** A fusion of gates that are not rotations is right only for the cancelling Z and X gates. */
  lemma FixedFusionIsFaithful(trig: Trig, operations: seq<Operation>, r: Rewrite)
    requires TrigLaws(trig) && UnitCircle(trig) && trig.pi > 0.0 && IsRunnable(trig, operations)
    requires Enabled(trig.pi, operations, r) && r.FuseAcross? && !IsRotation(GateOf(operations[r.at]).name)
    requires RefinesUpToFactors(trig, operations, Rewritten(trig.pi, operations, r))
    ensures Faithful(trig.pi, operations, r)
  {
    hide RefinesUpToFactors, NormalizeAngle, Slides, TrigLaws, UnitCircle, Reaches, IsRunnable, Refines, Rewritten,
         FusedGates;
    var i, j := r.at, r.other;
    assert r == FuseAcross(i, j);
    var gate, other := GateOf(operations[i]), GateOf(operations[j]);
    GateIsItself(operations[i]);
    GateIsItself(operations[j]);
    AcrossSlides(trig, operations, i, j);
    GatheredBack(trig, operations, i, j);
    FusionShape(trig.pi, operations, i, j);
    RunnablePieces(trig, operations, i, j);
    GatheredRewriting(trig, operations[..i], gate, other, operations[i + 1..j] + operations[j + 1..], operations);
  }

  /**
   * On every circuit of gates the engine runs, and for every rule wherever it is enabled: the rewriting computes the
   * same up to a global phase, or up to any nonzero numbers at all, if and only if the rule does not take the
   * parameters of fixed gates for angles, unless those are Z or X gates whose parameters cancel; and then a sign is
   * enough.
   */
  lemma RuleIsRightExactlyWhen(trig: Trig, operations: seq<Operation>, r: Rewrite)
    requires TrigLaws(trig) && UnitCircle(trig) && trig.pi > 0.0 && IsRunnable(trig, operations)
    requires Enabled(trig.pi, operations, r)
    ensures RefinesUpToFactors(trig, operations, Rewritten(trig.pi, operations, r))
      <==> Faithful(trig.pi, operations, r)
    ensures RefinesUpToPhase(trig, operations, Rewritten(trig.pi, operations, r)) <==> Faithful(trig.pi, operations, r)
  {
    hide RefinesUpToPhase, RefinesUpToFactors, NormalizeAngle, TrigLaws, UnitCircle, Reaches, IsNext, IsRunnable;
    var after := Rewritten(trig.pi, operations, r);
    if Faithful(trig.pi, operations, r) { RuleKeepsMeaning(trig, operations, r); }
    if RefinesUpToPhase(trig, operations, after) { SignIsFactor(trig, operations, after); }
    if RefinesUpToFactors(trig, operations, after) && r.FuseAcross? && !IsRotation(GateOf(operations[r.at]).name) {
      FixedFusionIsFaithful(trig, operations, r);
    }
  }

  // ---------------------------------------------------------------- a circuit the optimizer gets wrong

  /** s(a) q0; x q1; s(b) q0. The engine ignores a and b. */
  function StrayPair(a: real, b: real): seq<Operation> {
    [WithGate(Gate(S, [Bound(a)], [0])), WithGate(Gate(X, [], [1])), WithGate(Gate(S, [Bound(b)], [0]))]
  }

  lemma StrayPairRuns(trig: Trig, a: real, b: real)
    ensures IsRunnable(trig, StrayPair(a, b))
  {
    var first, middle, last := Gate(S, [Bound(a)], [0]), Gate(X, [], [1]), Gate(S, [Bound(b)], [0]);
    FixedOperator(trig, first);
    FixedOperator(trig, last);
    assert OperatorOf(trig, middle).Some?;
    hide OperatorOf;
    ThreeOperators(trig, first, middle, last);
    assert StrayPair(a, b) == [WithGate(first), WithGate(middle), WithGate(last)];
  }

  predicate IsStrayCase(operations: seq<Operation>, r: Rewrite, a: real, b: real) {
    operations == StrayPair(a, b) && r == FuseAcross(0, 2)
  }

  lemma StrayPairEnabled(pi: real, operations: seq<Operation>, r: Rewrite, a: real, b: real)
    requires pi > 0.0 && operations == StrayPair(a, b) && r == FuseAcross(0, 2)
    ensures Enabled(pi, operations, r) && !Faithful(pi, operations, r)
  {
    hide NormalizeAngle;
  }

  /** The rule applies, and the rewriting computes something else, under any phase and any nonzero numbers. */
  ghost predicate Breaks(trig: Trig, operations: seq<Operation>, r: Rewrite) {
    && trig.pi > 0.0 && Enabled(trig.pi, operations, r)
    && !RefinesUpToFactors(trig, operations, Rewritten(trig.pi, operations, r))
  }

  lemma UnfaithfulBreaks(trig: Trig, operations: seq<Operation>, r: Rewrite)
    requires TrigLaws(trig) && UnitCircle(trig) && trig.pi > 0.0 && IsRunnable(trig, operations)
    requires Enabled(trig.pi, operations, r) && !Faithful(trig.pi, operations, r)
    ensures Breaks(trig, operations, r)
  {
    hide RefinesUpToFactors, TrigLaws, UnitCircle, IsRunnable, Enabled, Faithful, Rewritten;
    RuleIsRightExactlyWhen(trig, operations, r);
  }

  /** Whatever the two parameters are, the rule fuses the two gates, and the circuit becomes a different one. */
  lemma StrayAnglesBreakFusion(trig: Trig, operations: seq<Operation>, r: Rewrite, a: real, b: real)
    requires Lawful(trig) && IsStrayCase(operations, r, a, b)
    ensures Breaks(trig, operations, r)
  {
    PositivePi(trig);
    hide Breaks, TrigLaws, UnitCircle, IsRunnable, StrayPair, Enabled, Faithful;
    StrayPairEnabled(trig.pi, operations, r, a, b);
    StrayPairRuns(trig, a, b);
    UnfaithfulBreaks(trig, operations, r);
  }
}
