/** What is not left in a circuit to which no peephole rule applies (src/engine/zx.ts:89-115, 204-419). */
module NormalForms {
  import opened Options
  import opened Circuits
  import opened GateLaws
  import opened PeepholeRules
  import Peephole

  /** The gate an operation applies under no condition. */
  predicate Applies(operation: Operation, gate: Gate) {
    operation == Plain(Apply(gate))
  }

  /** Between two positions there are only gates, and none of them on any of the qubits. */
  predicate OnlyGatesElsewhere(operations: seq<Operation>, i: nat, j: nat, qubits: seq<nat>) {
    && i < j < |operations|
    && forall m :: i < m < j ==>
         && operations[m].Plain? && operations[m].simple.Apply?
         && forall q :: q in qubits ==> q !in operations[m].simple.gate.qubits
  }

  lemma ElsewhereIsNext(operations: seq<Operation>, i: nat, j: nat, gate: Gate, other: Gate)
    requires OnlyGatesElsewhere(operations, i, j, gate.qubits) && Applies(operations[i], gate)
    requires Applies(operations[j], other) && other.qubits == gate.qubits && |gate.qubits| > 0
    ensures Partners(operations, i, j)
  {
    assert gate.qubits[0] in other.qubits && gate.qubits[0] in gate.qubits;
    forall m | i < m < j ensures IsGate(operations[m]) && !Touches(operations[m], gate.qubits) { }
  }

  // ---------------------------------------------------------------- single gates

  lemma NoIdentityLeft(pi: real, operations: seq<Operation>, i: nat, gate: Gate)
    requires pi > 0.0 && Peephole.Normal(pi, operations) && i < |operations| && Applies(operations[i], gate)
    ensures gate.name != Id && gate.name != I
  {
    assert !Enabled(pi, operations, DropIdentity(i));
  }

  /** No rotation by whole turns. */
  lemma NoWholeTurnLeft(pi: real, operations: seq<Operation>, i: nat, gate: Gate, n: int)
    requires pi > 0.0 && Peephole.Normal(pi, operations) && i < |operations| && Applies(operations[i], gate)
    requires gate.name in {Rz, Rx, Ry, P, U1}
    ensures gate.parameters != [Bound(Turns(2.0 * pi, n))]
  {
    assert !Enabled(pi, operations, DropZero(i));
    WholeTurnsVanish(pi, n);
  }

  lemma WholeTurnsVanish(pi: real, n: int)
    requires pi > 0.0
    ensures NormalizeAngle(pi, Turns(2.0 * pi, n)) == 0.0
  {
    hide NormalizeAngle;
    var angle := Turns(2.0 * pi, n);
    NormalizedAngle(pi, angle);
    var k := TurnsRemoved(pi, angle);
    var rest := NormalizeAngle(pi, angle);
    TurnDifference(2.0 * pi, n, k);
    SmallMultiple(2.0 * pi, n - k, rest);
  }

  lemma TurnDifference(d: real, m: int, n: int)
    ensures Turns(d, m) - Turns(d, n) == Turns(d, m - n)
  {
  }

  /** The one multiple of d from -d/2 to d/2, the lower end excluded, is zero. */
  lemma SmallMultiple(d: real, n: int, x: real)
    requires d > 0.0 && x == Turns(d, n) && -d / 2.0 < x <= d / 2.0
    ensures x == 0.0
  {
    if n >= 1 { TurnsGrow(d, 1, n); }
    if n <= -1 { TurnsGrow(d, n, -1); }
  }

  lemma TurnsGrow(d: real, m: int, n: int)
    requires d > 0.0 && m <= n
    ensures Turns(d, m) <= Turns(d, n)
  {
    assert Turns(d, n) - Turns(d, m) == d * (n - m) as real;
  }

  // ---------------------------------------------------------------- gates next to each other

  /** No gate without parameters that undoes itself stands twice with nothing on its qubits in between. */
  lemma NoPairLeft(pi: real, operations: seq<Operation>, i: nat, j: nat, name: GateName, qubits: seq<nat>)
    requires pi > 0.0 && Peephole.Normal(pi, operations) && i < j < |operations| && |qubits| > 0
    requires Applies(operations[i], Gate(name, [], qubits)) && Applies(operations[j], Gate(name, [], qubits))
    requires name in {X, Y, Z, H, Cx, Cnot, Cz, Cy, Swap}
    ensures !OnlyGatesElsewhere(operations, i, j, qubits)
  {
    assert !Enabled(pi, operations, CancelPair(i, j));
    hide Enabled;
    if OnlyGatesElsewhere(operations, i, j, qubits) {
      var gate := Gate(name, [], qubits);
      ElsewhereIsNext(operations, i, j, gate, gate);
      CancelIsEnabled(pi, operations, i, j);
    }
  }

  lemma CancelIsEnabled(pi: real, operations: seq<Operation>, i: nat, j: nat)
    requires pi > 0.0 && Partners(operations, i, j) && GateOf(operations[i]) == GateOf(operations[j])
    requires GateOf(operations[i]).name in {X, Y, Z, H, Cx, Cnot, Cz, Cy, Swap}
      && GateOf(operations[i]).parameters == []
    ensures Enabled(pi, operations, CancelPair(i, j))
  {
    hide IsNext;
  }

  /** No gate of the colour-change table stands between two Hadamard gates. */
  lemma NoConjugateLeft(
    pi: real, operations: seq<Operation>, i: nat, j: nat, k: nat, name: GateName, parameters: seq<Parameter>,
    opening: seq<Parameter>, closing: seq<Parameter>, q: nat)
    requires pi > 0.0 && Peephole.Normal(pi, operations) && i < j < k < |operations|
    requires Applies(operations[i], Gate(H, opening, [q])) && Applies(operations[k], Gate(H, closing, [q]))
    requires Applies(operations[j], Gate(name, parameters, [q])) && name in {Z, X, Rz, Rx, S}
    ensures !(OnlyGatesElsewhere(operations, i, j, [q]) && OnlyGatesElsewhere(operations, j, k, [q]))
  {
    assert !Enabled(pi, operations, ConjugateH(i, j, k));
    if OnlyGatesElsewhere(operations, i, j, [q]) && OnlyGatesElsewhere(operations, j, k, [q]) {
      ElsewhereIsNext(operations, i, j, Gate(H, opening, [q]), Gate(name, parameters, [q]));
      ElsewhereIsNext(operations, j, k, Gate(name, parameters, [q]), Gate(H, closing, [q]));
      hide IsNext, OnlyGatesElsewhere;
    }
  }

  /** No two rotations of one kind with known angles stand next to each other on their qubits. */
  lemma NoNeighboursLeft(
    pi: real, operations: seq<Operation>, i: nat, j: nat, name: GateName, a: real, b: real, qubits: seq<nat>)
    requires pi > 0.0 && Peephole.Normal(pi, operations) && i < j < |operations| && |qubits| > 0
    requires Applies(operations[i], Gate(name, [Bound(a)], qubits))
      && Applies(operations[j], Gate(name, [Bound(b)], qubits))
    requires name in {Rz, Rx, Ry, P, U1}
    ensures !OnlyGatesElsewhere(operations, i, j, qubits)
  {
    assert !Enabled(pi, operations, FuseAdjacent(i, j));
    if OnlyGatesElsewhere(operations, i, j, qubits) {
      ElsewhereIsNext(operations, i, j, Gate(name, [Bound(a)], qubits), Gate(name, [Bound(b)], qubits));
      hide IsNext, OnlyGatesElsewhere;
    }
  }

  // ---------------------------------------------------------------- rotations apart from each other

  /** A gate past which a rotation about Z slides on a qubit: elsewhere, diagonal, or controlled there. */
  predicate LetsZPass(operation: Operation, q: nat) {
    && operation.Plain? && operation.simple.Apply?
    && var gate := operation.simple.gate;
       || q !in gate.qubits
       || gate.name in {Z, S, Sdg, T, Tdg, Rz, P, Cz}
       || (gate.name in {Cx, Cnot} && |gate.qubits| > 0 && gate.qubits[0] == q)
  }

  /** A gate past which a rotation about X slides on a qubit: elsewhere, about X, or with its flipped end there. */
  predicate LetsXPass(operation: Operation, q: nat) {
    && operation.Plain? && operation.simple.Apply?
    && var gate := operation.simple.gate;
       || q !in gate.qubits
       || gate.name in {X, Rx, Sx}
       || (gate.name in {Cx, Cnot} && |gate.qubits| > 1 && gate.qubits[0] != q && gate.qubits[1] == q)
  }

  predicate LetsPass(name: GateName, operation: Operation, q: nat) {
    if name in {Rx, X, Sx} then LetsXPass(operation, q) else LetsZPass(operation, q)
  }

  /** A gate of the name with one parameter on that qubit alone. */
  predicate IsLike(operation: Operation, name: GateName, q: nat) {
    && operation.Plain? && operation.simple.Apply?
    && operation.simple.gate.name == name && operation.simple.gate.qubits == [q]
      && |operation.simple.gate.parameters| == 1
  }

  /**
   * No two rotations of one kind about Z or X with known angles stand on a qubit with only gates in between that such a
   * rotation slides past: something blocks, or another rotation of the kind stands between them.
   */
  lemma NoRotationsApart(
    pi: real, operations: seq<Operation>, i: nat, j: nat, name: GateName, a: real, b: real, q: nat)
    requires pi > 0.0 && Peephole.Normal(pi, operations) && i + 1 < j < |operations|
    requires Applies(operations[i], Gate(name, [Bound(a)], [q])) && Applies(operations[j], Gate(name, [Bound(b)], [q]))
    requires name in {Rz, Z, S, Sdg, T, Tdg, P, Rx, X, Sx}
    ensures exists m :: i < m < j && (!LetsPass(name, operations[m], q) || IsLike(operations[m], name, q))
  {
    assert !Enabled(pi, operations, FuseAcross(i, j));
    if forall m :: i < m < j ==> LetsPass(name, operations[m], q) && !IsLike(operations[m], name, q) {
      var axis := RotationAxis(name).value;
      forall m | i < m < j
        ensures CommutesOn(axis, operations[m], q) && !SameRotation(operations[i], operations[m])
      {
        assert LetsPass(name, operations[m], q);
      }
      assert Reaches(operations, i, j);
    }
  }
}
