/** The peephole optimizer (src/engine/zx.ts:176-449): one sweep over a list it edits in place, and the driver loop. */
module Peephole {
  import opened Options
  import opened Circuits
  import opened Semantics
  import opened GateLaws
  import opened PeepholeRules
  import opened Refinement
  import opened PeepholeSteps

  /** The order in which the sweep tries the rules at one position. */
  function Rank(r: Rewrite): nat {
    match r
    case DropIdentity(_) => 0
    case DropZero(_) => 1
    case FuseAcross(_, _) => 2
    case CancelPair(_, _) => 3
    case ConjugateH(_, _, _) => 4
    case FuseAdjacent(_, _) => 5
  }

  /** No rule applies anywhere. */
  ghost predicate Normal(pi: real, operations: seq<Operation>)
    requires pi > 0.0
  {
    forall r: Rewrite :: !Enabled(pi, operations, r)
  }

  /** r applies, and every rule that applies does so later in the list, or at the same position and is tried later. */
  ghost predicate IsFirst(pi: real, operations: seq<Operation>, r: Rewrite)
    requires pi > 0.0
  {
    && Enabled(pi, operations, r)
    && forall q: Rewrite :: Enabled(pi, operations, q) ==> r.at < q.at || (r.at == q.at && Rank(r) <= Rank(q))
  }

  /** Nothing applies before a position. */
  ghost predicate QuietBefore(pi: real, operations: seq<Operation>, index: nat)
    requires pi > 0.0
  {
    forall q: Rewrite :: Enabled(pi, operations, q) ==> index <= q.at
  }

  /** Nothing tried earlier than the given rank applies at a position. */
  ghost predicate QuietAt(pi: real, operations: seq<Operation>, index: nat, rank: nat)
    requires pi > 0.0
  {
    forall q: Rewrite :: Enabled(pi, operations, q) && q.at == index ==> rank <= Rank(q)
  }

  lemma FirstByRank(pi: real, operations: seq<Operation>, r: Rewrite)
    requires pi > 0.0 && Enabled(pi, operations, r)
    requires QuietBefore(pi, operations, r.at) && QuietAt(pi, operations, r.at, Rank(r))
    ensures IsFirst(pi, operations, r)
  {
    hide Enabled;
  }

  /** The next operation touching the qubits, unless something other than a gate comes in between. */
  method NextInteracting(operations: seq<Operation>, from: nat, qubits: seq<nat>) returns (next: Option<nat>)
    requires from < |operations|
    ensures next.Some? ==> IsNext(operations, from, qubits, next.value)
    ensures next.None? ==> forall j: nat :: !IsNext(operations, from, qubits, j)
  {
    for index := from + 1 to |operations|
      invariant forall m :: from < m < index ==> IsGate(operations[m]) && !Touches(operations[m], qubits)
    {
      if !IsGate(operations[index]) {
        return if Touches(operations[index], qubits) then Some(index) else None;
      }
      if Touches(operations[index], qubits) {
        return Some(index);
      }
    }
    return None;
  }

  lemma OnlyGatesCommute(axis: Axis, operation: Operation, qubit: nat)
    requires !IsGate(operation)
    ensures !CommutesOn(axis, operation, qubit)
  {
  }

  /** The scan of spider fusion: a second rotation reached past at least one gate, all of them commuting. */
  method NextFusible(pi: real, operations: seq<Operation>, index: nat) returns (found: Option<nat>)
    requires pi > 0.0 && index < |operations| && IsFusible(operations[index])
    ensures found.Some? ==> Enabled(pi, operations, FuseAcross(index, found.value))
    ensures found.None? ==> forall j: nat :: !Enabled(pi, operations, FuseAcross(index, j))
  {
    hide NormalizeAngle, CommutesOn;
    var current := GateOf(operations[index]);
    var axis := RotationAxis(current.name).value;
    for scan := index + 1 to |operations|
      invariant Reaches(operations, index, scan)
      invariant forall j: nat :: j < scan ==> !Enabled(pi, operations, FuseAcross(index, j))
    {
      if !IsGate(operations[scan]) {
        OnlyGatesCommute(axis, operations[scan], current.qubits[0]);
        return None;
      }
      if SameRotation(operations[index], operations[scan]) && scan > index + 1 {
        if HasAngle(current) && HasAngle(GateOf(operations[scan])) {
          return Some(scan);
        }
        return None;
      }
      if !CommutesOn(axis, operations[scan], current.qubits[0]) {
        return None;
      }
    }
    return None;
  }

  // ---------------------------------------------------------------- the pass

  class RewritePass {
    var operations: seq<Operation>

    constructor (source: seq<Operation>)
      ensures operations == source
    {
      operations := source;
    }

    method Remove(at: nat)
      requires at < |operations|
      modifies this
      ensures operations == Without(old(operations), at)
    {
      operations := operations[..at] + operations[at + 1..];
    }

    /** Put the summed rotation at i and remove the one at j; a sum of zero removes both. */
    method Fuse(pi: real, i: nat, j: nat)
      requires pi > 0.0 && i < j < |operations| && IsGate(operations[i]) && IsGate(operations[j])
      requires HasAngle(GateOf(operations[i])) && HasAngle(GateOf(operations[j]))
      modifies this
      ensures operations == Fused(pi, old(operations), i, j)
    {
      hide NormalizeAngle;
      var gate := GateOf(operations[i]);
      var total := NormalizeAngle(pi, gate.parameters[0].angle + GateOf(operations[j]).parameters[0].angle);
      Remove(j);
      if total == 0.0 {
        Remove(i);
      } else {
        operations := operations[i := WithGate(gate.(parameters := [Bound(total)]))];
      }
    }

    /** Drop the two Hadamard gates and change the axis of the gate between them. */
    method Recolour(i: nat, j: nat, k: nat)
      requires i < j < k < |operations| && IsGate(operations[j]) && Conjugate(GateOf(operations[j]).name).Some?
      modifies this
      ensures operations
           == var gate := GateOf(old(operations)[j]);
              Without(Without(old(operations), k)[j := WithGate(gate.(name := Conjugate(gate.name).value))], i)
    {
      var gate := GateOf(operations[j]);
      Remove(k);
      operations := operations[j := WithGate(gate.(name := Conjugate(gate.name).value))];
      Remove(i);
    }

    /** The rules that look at one position alone, or scan past commuting gates. */
    method TryAlone(pi: real, index: nat) returns (ghost applied: Option<Rewrite>, changed: bool)
      requires pi > 0.0 && index < |operations| && IsGate(operations[index]) && QuietBefore(pi, operations, index)
      modifies this
      ensures changed == applied.Some?
      ensures applied.Some? ==> (
        && IsFirst(pi, old(operations), applied.value)
        && operations == Rewritten(pi, old(operations), applied.value))
      ensures applied.None? ==> operations == old(operations) && QuietAt(pi, operations, index, 3)
    {
      hide NormalizeAngle, Reaches, IsNext;
      var current := GateOf(operations[index]);
      if current.name in {Id, I} {
        FirstByRank(pi, operations, DropIdentity(index));
        Remove(index);
        return Some(DropIdentity(index)), true;
      }
      if IsRotation(current.name) && HasAngle(current) && NormalizeAngle(pi, current.parameters[0].angle) == 0.0 {
        FirstByRank(pi, operations, DropZero(index));
        Remove(index);
        return Some(DropZero(index)), true;
      }
      if IsFusible(operations[index]) {
        var found := NextFusible(pi, operations, index);
        if found.Some? {
          FirstByRank(pi, operations, FuseAcross(index, found.value));
          Fuse(pi, index, found.value);
          return Some(FuseAcross(index, found.value)), true;
        }
      }
      return None, false;
    }

    /** The colour-change rule, for a gate at index whose partner is at j. */
    method TryConjugation(pi: real, index: nat, j: nat) returns (ghost applied: Option<Rewrite>, changed: bool)
      requires pi > 0.0 && Partners(operations, index, j)
      requires QuietBefore(pi, operations, index) && QuietAt(pi, operations, index, 4)
      modifies this
      ensures changed == applied.Some?
      ensures applied.Some? ==> (
        && IsFirst(pi, old(operations), applied.value)
        && operations == Rewritten(pi, old(operations), applied.value))
      ensures applied.None? ==> operations == old(operations) && QuietAt(pi, operations, index, 5)
    {
      hide NormalizeAngle, Reaches;
      var current, partner := GateOf(operations[index]), GateOf(operations[j]);
      if current.name == H && |current.qubits| == 1 && Conjugate(partner.name).Some? {
        var closing := NextInteracting(operations, j, partner.qubits);
        if closing.Some? && IsGate(operations[closing.value]) {
          var k := closing.value;
          if GateOf(operations[k]).name == H && GateOf(operations[k]).qubits == current.qubits {
            FirstByRank(pi, operations, ConjugateH(index, j, k));
            Recolour(index, j, k);
            return Some(ConjugateH(index, j, k)), true;
          }
        }
      }
      return None, false;
    }

    /** The rules that look at the next gate on the same qubits. */
    method TryPartner(pi: real, index: nat) returns (ghost applied: Option<Rewrite>, changed: bool)
      requires pi > 0.0 && index < |operations| && IsGate(operations[index])
      requires QuietBefore(pi, operations, index) && QuietAt(pi, operations, index, 3)
      modifies this
      ensures changed == applied.Some?
      ensures applied.Some? ==> (
        && IsFirst(pi, old(operations), applied.value)
        && operations == Rewritten(pi, old(operations), applied.value))
      ensures applied.None? ==> operations == old(operations) && QuietAt(pi, operations, index, 6)
    {
      hide NormalizeAngle, Reaches, IsFirst, Conjugate;
      var current := GateOf(operations[index]);
      var next := NextInteracting(operations, index, current.qubits);
      if next.None? || !IsGate(operations[next.value]) {
        return None, false;
      }
      var j := next.value;
      var partner := GateOf(operations[j]);
      if current.qubits != partner.qubits {
        return None, false;
      }
      if current.name == partner.name && IsSelfInverse(current.name) && |current.parameters| == 0 {
        FirstByRank(pi, operations, CancelPair(index, j));
        Remove(j);
        Remove(index);
        return Some(CancelPair(index, j)), true;
      }
      applied, changed := TryConjugation(pi, index, j);
      if changed { return; }
      if current.name == partner.name && IsRotation(current.name) && HasAngle(current) && HasAngle(partner) {
        FirstByRank(pi, operations, FuseAdjacent(index, j));
        Fuse(pi, index, j);
        return Some(FuseAdjacent(index, j)), true;
      }
      return None, false;
    }

    /** Applies the first rule that applies, or reports that none does. */
    method Sweep(pi: real) returns (ghost applied: Option<Rewrite>, changed: bool)
      requires pi > 0.0
      modifies this
      ensures changed == applied.Some?
      ensures applied.Some? ==> (
        && IsFirst(pi, old(operations), applied.value)
        && operations == Rewritten(pi, old(operations), applied.value))
      ensures applied.None? ==> operations == old(operations) && Normal(pi, operations)
    {
      hide Enabled;
      for index := 0 to |operations|
        invariant operations == old(operations)
        invariant QuietBefore(pi, operations, index)
      {
        if IsGate(operations[index]) {
          applied, changed := TryAlone(pi, index);
          if changed { return; }
          applied, changed := TryPartner(pi, index);
          if changed { return; }
        } else {
          OnlyGatesRewrite(pi, operations, index);
        }
        QuietNext(pi, operations, index);
      }
      NothingLeft(pi, operations);
      return None, false;
    }
  }

  lemma OnlyGatesRewrite(pi: real, operations: seq<Operation>, index: nat)
    requires pi > 0.0 && index < |operations| && !IsGate(operations[index])
    ensures QuietAt(pi, operations, index, 6)
  {
  }

  lemma QuietNext(pi: real, operations: seq<Operation>, index: nat)
    requires pi > 0.0 && QuietBefore(pi, operations, index) && QuietAt(pi, operations, index, 6)
    ensures QuietBefore(pi, operations, index + 1)
  {
    hide Enabled;
  }

  lemma NothingLeft(pi: real, operations: seq<Operation>)
    requires pi > 0.0 && QuietBefore(pi, operations, |operations|)
    ensures Normal(pi, operations)
  {
    hide NormalizeAngle, Reaches, IsNext;
    forall r: Rewrite ensures !Enabled(pi, operations, r) {
      assert Enabled(pi, operations, r) ==> r.at < |operations|;
    }
  }

  /**
   * Sweeps until nothing applies or the cap is reached. The result is the source up to global phase, its other
   * operations are untouched, and unless the cap cut the run short no rule applies to it any more. A cap of at least
   * the gate count never does.
   */
  method OptimizeWithZx(trig: Trig, source: seq<Operation>, maxIterations: nat)
    returns (result: seq<Operation>, iterations: nat, truncated: bool)
    requires TrigLaws(trig)
    ensures NoStrayAngles(source) ==> RefinesUpToPhase(trig, source, result)
    ensures NonGates(result) == NonGates(source)
    ensures iterations <= GateCount(source) - GateCount(result) <= 2 * iterations
    ensures truncated <==> iterations == maxIterations
    ensures trig.pi > 0.0 && (!truncated ==> Normal(trig.pi, result))
    ensures GateCount(source) < maxIterations ==> !truncated
  {
    PositivePi(trig);
    hide NoStrayAngles, RefinesUpToPhase, NonGates, Enabled, TrigLaws, Normal, IsFirst;
    var pass := new RewritePass(source);
    PhaseRefl(trig, source);
    iterations := 0;
    var changed := true;
    while iterations < maxIterations && changed
      invariant iterations <= maxIterations
      invariant NoStrayAngles(source) ==>
        NoStrayAngles(pass.operations) && RefinesUpToPhase(trig, source, pass.operations)
      invariant NonGates(pass.operations) == NonGates(source)
      invariant iterations <= GateCount(source) - GateCount(pass.operations) <= 2 * iterations
      invariant !changed ==> Normal(trig.pi, pass.operations) && iterations < maxIterations
      decreases maxIterations - iterations, changed
    {
      ghost var before := pass.operations;
      ghost var applied;
      applied, changed := pass.Sweep(trig.pi);
      if changed {
        iterations := iterations + 1;
        FirstIsEnabled(trig.pi, before, applied.value);
        StepKeeps(trig, before, applied.value);
        if NoStrayAngles(source) { PhaseTrans(trig, source, before, pass.operations); }
      }
    }
    result := pass.operations;
    truncated := iterations >= maxIterations;
  }

  lemma FirstIsEnabled(pi: real, operations: seq<Operation>, r: Rewrite)
    requires pi > 0.0 && IsFirst(pi, operations, r)
    ensures Enabled(pi, operations, r)
  {
  }

  lemma StepKeeps(trig: Trig, before: seq<Operation>, r: Rewrite)
    requires TrigLaws(trig) && trig.pi > 0.0 && Enabled(trig.pi, before, r)
    ensures var after := Rewritten(trig.pi, before, r);
      && (NoStrayAngles(before) ==> NoStrayAngles(after) && RefinesUpToPhase(trig, before, after))
      && NonGates(after) == NonGates(before)
      && 1 <= GateCount(before) - GateCount(after) <= 2
  {
    hide NoStrayAngles, RefinesUpToPhase, NonGates, Enabled, TrigLaws;
    RuleRemovesGates(trig.pi, before, r);
    if NoStrayAngles(before) {
      NoStrayAnglesIsFaithful(trig.pi, before, r);
      RuleKeepsMeaning(trig, before, r);
      RuleKeepsAngles(trig.pi, before, r);
    }
  }
}
