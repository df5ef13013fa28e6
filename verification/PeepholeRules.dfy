/**
 * The rewrite rules of the peephole optimizer (src/engine/zx.ts:89-115, 191-419) as relations on an operation list:
 * where each rule applies, and what the list becomes.
 */
module PeepholeRules {
  import opened Options
  import opened Circuits
  import opened GateLaws

  datatype Rewrite =
    | DropIdentity(at: nat)
    | DropZero(at: nat)
    | FuseAcross(at: nat, other: nat)
    | CancelPair(at: nat, other: nat)
    | ConjugateH(at: nat, other: nat, closing: nat)
    | FuseAdjacent(at: nat, other: nat)

  // ---------------------------------------------------------------- looking at operations

  predicate IsGate(operation: Operation) {
    operation.Plain? && operation.simple.Apply?
  }

  function GateOf(operation: Operation): Gate
    requires IsGate(operation)
  {
    operation.simple.gate
  }

  predicate SimpleTouches(simple: Simple, qubits: seq<nat>) {
    match simple
    case Apply(gate) => exists q :: q in gate.qubits && q in qubits
    case Measure(qubit, _) => qubit in qubits
    case Reset(qubit) => qubit in qubits
    case Barrier(spanned) => |spanned| == 0 || exists q :: q in spanned && q in qubits
  }

  predicate Touches(operation: Operation, qubits: seq<nat>) {
    match operation
    case Plain(simple) => SimpleTouches(simple, qubits)
    case Conditional(_, body) => SimpleTouches(body, qubits)
  }

  /** j is the next operation touching the qubits, with nothing but gates in between. */
  predicate IsNext(operations: seq<Operation>, i: nat, qubits: seq<nat>, j: nat) {
    && i < j < |operations|
    && Touches(operations[j], qubits)
    && forall m :: i < m < j ==> IsGate(operations[m]) && !Touches(operations[m], qubits)
  }

  // ---------------------------------------------------------------- tables

  datatype Axis = AxisZ | AxisX

  function RotationAxis(name: GateName): Option<Axis> {
    if name in {Rz, Z, S, Sdg, T, Tdg, P} then Some(AxisZ)
    else if name in {Rx, X, Sx} then Some(AxisX)
    else None
  }

  predicate IsSelfInverse(name: GateName) {
    name in {X, Y, Z, H, Cx, Cnot, Cz, Cy, Swap, Id, I}
  }

  predicate CommutesWithZOn(operation: Operation, qubit: nat) {
    && IsGate(operation)
    && var gate := GateOf(operation);
       || qubit !in gate.qubits
       || gate.name in {Z, S, Sdg, T, Tdg, Rz, P, Cz}
       || (gate.name in {Cx, Cnot} && gate.qubits[0] == qubit)
  }

  predicate CommutesWithXOn(operation: Operation, qubit: nat) {
    && IsGate(operation)
    && var gate := GateOf(operation);
       || qubit !in gate.qubits
       || gate.name in {X, Rx, Sx}
       || (gate.name in {Cx, Cnot} && |gate.qubits| > 1 && gate.qubits[0] != qubit && gate.qubits[1] == qubit)
  }

  predicate CommutesOn(axis: Axis, operation: Operation, qubit: nat) {
    match axis
    case AxisZ => CommutesWithZOn(operation, qubit)
    case AxisX => CommutesWithXOn(operation, qubit)
  }

  predicate HasAngle(gate: Gate) {
    |gate.parameters| == 1 && gate.parameters[0].Bound?
  }

  // ---------------------------------------------------------------- where a rule applies

  /** The rotation that could be fused with another across commuting gates. */
  predicate IsFusible(operation: Operation) {
    && IsGate(operation)
    && |GateOf(operation).qubits| == 1 && |GateOf(operation).parameters| == 1
    && RotationAxis(GateOf(operation).name).Some?
  }

  predicate SameRotation(operation: Operation, other: Operation)
    requires IsFusible(operation)
  {
    && IsGate(other)
    && GateOf(other).name == GateOf(operation).name
    && GateOf(other).qubits == GateOf(operation).qubits
    && |GateOf(other).parameters| == 1
  }

  /**
   * The scan from the rotation at i reaches position j: everything passed commutes, and none of it would have fused.
   */
  predicate Reaches(operations: seq<Operation>, i: nat, j: nat)
    requires i < |operations| && IsFusible(operations[i])
  {
    && i < j <= |operations|
    && var axis := RotationAxis(GateOf(operations[i]).name).value;
       var qubit := GateOf(operations[i]).qubits[0];
       forall m :: i < m < j ==>
         && CommutesOn(axis, operations[m], qubit)
         && (m > i + 1 ==> !SameRotation(operations[i], operations[m]))
  }

  predicate Partners(operations: seq<Operation>, i: nat, j: nat) {
    && i < j < |operations|
    && IsGate(operations[i]) && IsGate(operations[j])
    && IsNext(operations, i, GateOf(operations[i]).qubits, j)
    && GateOf(operations[i]).qubits == GateOf(operations[j]).qubits
  }

  predicate Enabled(pi: real, operations: seq<Operation>, r: Rewrite)
    requires pi > 0.0
  {
    && r.at < |operations| && IsGate(operations[r.at])
    && var gate := GateOf(operations[r.at]);
       match r
       case DropIdentity(_) => gate.name in {Id, I}
       case DropZero(_) =>
         IsRotation(gate.name) && HasAngle(gate) && NormalizeAngle(pi, gate.parameters[0].angle) == 0.0
       case FuseAcross(i, j) =>
         && IsFusible(operations[i]) && i + 1 < j < |operations|
         && Reaches(operations, i, j) && SameRotation(operations[i], operations[j])
         && HasAngle(gate) && HasAngle(GateOf(operations[j]))
       case CancelPair(i, j) =>
         && Partners(operations, i, j)
         && GateOf(operations[j]).name == gate.name && IsSelfInverse(gate.name) && |gate.parameters| == 0
       case ConjugateH(i, j, k) =>
         && gate.name == H && |gate.qubits| == 1
         && Partners(operations, i, j) && Conjugate(GateOf(operations[j]).name).Some?
         && Partners(operations, j, k) && GateOf(operations[k]).name == H
       case FuseAdjacent(i, j) =>
         && Partners(operations, i, j)
         && GateOf(operations[j]).name == gate.name && IsRotation(gate.name)
         && HasAngle(gate) && HasAngle(GateOf(operations[j]))
  }

  // ---------------------------------------------------------------- what a rule does

  function Without(operations: seq<Operation>, i: nat): seq<Operation>
    requires i < |operations|
  {
    operations[..i] + operations[i + 1..]
  }

  function WithGate(gate: Gate): Operation {
    Plain(Apply(gate))
  }

  /** Fusing the rotation at j into the one at i; a total of zero removes both. */
  function Fused(pi: real, operations: seq<Operation>, i: nat, j: nat): seq<Operation>
    requires pi > 0.0 && i < j < |operations| && IsGate(operations[i]) && IsGate(operations[j])
    requires HasAngle(GateOf(operations[i])) && HasAngle(GateOf(operations[j]))
  {
    var gate := GateOf(operations[i]);
    var total := NormalizeAngle(pi, gate.parameters[0].angle + GateOf(operations[j]).parameters[0].angle);
    var shorter := Without(operations, j);
    if total == 0.0 then Without(shorter, i) else shorter[i := WithGate(gate.(parameters := [Bound(total)]))]
  }

  function Rewritten(pi: real, operations: seq<Operation>, r: Rewrite): seq<Operation>
    requires pi > 0.0 && Enabled(pi, operations, r)
  {
    match r
    case DropIdentity(i) => Without(operations, i)
    case DropZero(i) => Without(operations, i)
    case FuseAcross(i, j) => Fused(pi, operations, i, j)
    case CancelPair(i, j) => Without(Without(operations, j), i)
    case ConjugateH(i, j, k) =>
      var gate := GateOf(operations[j]);
      Without(Without(operations, k)[j := WithGate(gate.(name := Conjugate(gate.name).value))], i)
    case FuseAdjacent(i, j) => Fused(pi, operations, i, j)
  }

  // ---------------------------------------------------------------- what every rule keeps

  /** The operations no rule may touch, in order. */
  function NonGates(operations: seq<Operation>): (kept: seq<Operation>)
    ensures |kept| <= |operations|
  {
    if |operations| == 0 then []
    else
      var last := operations[|operations| - 1];
      NonGates(operations[..|operations| - 1]) + (if IsGate(last) then [] else [last])
  }

  function GateCount(operations: seq<Operation>): nat {
    |operations| - |NonGates(operations)|
  }

  lemma {:induction false} NonGatesConcat(left: seq<Operation>, right: seq<Operation>)
    ensures NonGates(left + right) == NonGates(left) + NonGates(right)
  {
    if |right| == 0 {
      assert left + right == left;
    } else {
      var n := |right| - 1;
      assert (left + right)[..|left + right| - 1] == left + right[..n];
      NonGatesConcat(left, right[..n]);
    }
  }

  lemma OneGate(operation: Operation)
    requires IsGate(operation)
    ensures NonGates([operation]) == []
  {
    assert [operation][..0] == [];
  }

  lemma WithoutKeeps(operations: seq<Operation>, i: nat)
    requires i < |operations| && IsGate(operations[i])
    ensures NonGates(Without(operations, i)) == NonGates(operations)
  {
    hide NonGates;
    var left, right := operations[..i], operations[i + 1..];
    assert operations == (left + [operations[i]]) + right;
    NonGatesConcat(left + [operations[i]], right);
    NonGatesConcat(left, [operations[i]]);
    NonGatesConcat(left, right);
    OneGate(operations[i]);
    assert NonGates(left) + [] == NonGates(left);
  }

  lemma UpdateKeeps(operations: seq<Operation>, i: nat, gate: Gate)
    requires i < |operations| && IsGate(operations[i])
    ensures NonGates(operations[i := WithGate(gate)]) == NonGates(operations)
  {
    var updated := operations[i := WithGate(gate)];
    WithoutKeeps(operations, i);
    WithoutKeeps(updated, i);
    assert Without(operations, i) == Without(updated, i);
  }

  /** Every rule removes one or two gates, and leaves the other operations and their order alone. */
  lemma RuleRemovesGates(pi: real, operations: seq<Operation>, r: Rewrite)
    requires pi > 0.0 && Enabled(pi, operations, r)
    ensures var after := Rewritten(pi, operations, r);
      && NonGates(after) == NonGates(operations)
      && 1 <= |operations| - |after| <= 2
      && 1 <= GateCount(operations) - GateCount(after) <= 2
      && (r.CancelPair? || r.ConjugateH? ==> |operations| - |after| == 2)
  {
    hide NonGates, Reaches, IsNext;
    match r {
      case DropIdentity(i) => WithoutKeeps(operations, i);
      case DropZero(i) => WithoutKeeps(operations, i);
      case FuseAcross(i, j) => FusedKeeps(pi, operations, i, j);
      case CancelPair(i, j) =>
        WithoutKeeps(operations, j);
        WithoutKeeps(Without(operations, j), i);
      case ConjugateH(i, j, k) =>
        WithoutKeeps(operations, k);
        var gate := GateOf(operations[j]);
        var flipped := gate.(name := Conjugate(gate.name).value);
        UpdateKeeps(Without(operations, k), j, flipped);
        WithoutKeeps(Without(operations, k)[j := WithGate(flipped)], i);
      case FuseAdjacent(i, j) => FusedKeeps(pi, operations, i, j);
    }
  }

  lemma FusedKeeps(pi: real, operations: seq<Operation>, i: nat, j: nat)
    requires pi > 0.0 && i < j < |operations| && IsGate(operations[i]) && IsGate(operations[j])
    requires HasAngle(GateOf(operations[i])) && HasAngle(GateOf(operations[j]))
    ensures NonGates(Fused(pi, operations, i, j)) == NonGates(operations)
    ensures 1 <= |operations| - |Fused(pi, operations, i, j)| <= 2
  {
    hide NonGates, NormalizeAngle;
    var gate := GateOf(operations[i]);
    var total := NormalizeAngle(pi, gate.parameters[0].angle + GateOf(operations[j]).parameters[0].angle);
    var shorter := Without(operations, j);
    WithoutKeeps(operations, j);
    WithoutKeeps(shorter, i);
    UpdateKeeps(shorter, i, gate.(parameters := [Bound(total)]));
  }
}
