/**
 * As-soon-as-possible layers of a circuit, as dynamical decoupling assigns them (src/engine/decoupling.ts:44-113),
 * and the circuit depth they must agree with (src/engine/transpile.ts:70-101).
 */
module Layering {
  import opened Options
  import opened Circuits

  /** The qubits an operation occupies; barriers and conditionals count as occupying none. */
  function TouchedQubits(operation: Operation): seq<nat> {
    match operation
    case Plain(Apply(gate)) => gate.qubits
    case Plain(Measure(qubit, _)) => [qubit]
    case Plain(Reset(qubit)) => [qubit]
    case _ => []
  }

  function FrontOf(front: map<nat, nat>, qubit: nat): nat {
    if qubit in front then front[qubit] else 0
  }

  function MaxFront(qubits: seq<nat>, front: map<nat, nat>): nat {
    if |qubits| == 0 then 0
    else
      var rest, last := MaxFront(qubits[..|qubits| - 1], front), FrontOf(front, qubits[|qubits| - 1]);
      if last > rest then last else rest
  }

  function Raise(front: map<nat, nat>, qubits: seq<nat>, layer: nat): map<nat, nat> {
    if |qubits| == 0 then front else Raise(front, qubits[..|qubits| - 1], layer)[qubits[|qubits| - 1] := layer]
  }

  /** The latest layer of every qubit after some operations. */
  function Front(operations: seq<Operation>): map<nat, nat> {
    if |operations| == 0 then map[]
    else
      var before := Front(operations[..|operations| - 1]);
      var qubits := TouchedQubits(operations[|operations| - 1]);
      if |qubits| == 0 then before else Raise(before, qubits, MaxFront(qubits, before) + 1)
  }

  /** The layer of an operation; zero for one that occupies no qubit. */
  function LayerAt(operations: seq<Operation>, i: nat): nat
    requires i < |operations|
  {
    var qubits := TouchedQubits(operations[i]);
    if |qubits| == 0 then 0 else MaxFront(qubits, Front(operations[..i])) + 1
  }

  /** The highest layer among the first n operations. */
  function TopLayer(operations: seq<Operation>, n: nat): nat
    requires n <= |operations|
  {
    if n == 0 then 0
    else
      var before, last := TopLayer(operations, n - 1), LayerAt(operations, n - 1);
      if last > before then last else before
  }

  // ---------------------------------------------------------------- facts about layers

  lemma {:induction false} RaisedFront(front: map<nat, nat>, qubits: seq<nat>, layer: nat, q: nat)
    ensures FrontOf(Raise(front, qubits, layer), q) == if q in qubits then layer else FrontOf(front, q)
    ensures Raise(front, qubits, layer).Keys == front.Keys + set x | x in qubits
  {
    if |qubits| > 0 {
      var n := |qubits| - 1;
      RaisedFront(front, qubits[..n], layer, q);
      assert forall x :: x in qubits <==> x in qubits[..n] || x == qubits[n];
    }
  }

  lemma {:induction false} MaxFrontBounds(qubits: seq<nat>, front: map<nat, nat>)
    ensures forall q :: q in qubits ==> FrontOf(front, q) <= MaxFront(qubits, front)
    ensures MaxFront(qubits, front) == 0 || exists q :: q in qubits && FrontOf(front, q) == MaxFront(qubits, front)
  {
    if |qubits| > 0 {
      var n := |qubits| - 1;
      MaxFrontBounds(qubits[..n], front);
      assert forall x :: x in qubits <==> x in qubits[..n] || x == qubits[n];
      if FrontOf(front, qubits[n]) <= MaxFront(qubits[..n], front) && MaxFront(qubits, front) != 0 {
        var q :| q in qubits[..n] && FrontOf(front, q) == MaxFront(qubits[..n], front);
        assert q in qubits;
      }
    }
  }

  /** What one operation does to the fronts. */
  lemma FrontStep(operations: seq<Operation>, n: nat, q: nat)
    requires n < |operations|
    ensures FrontOf(Front(operations[..n + 1]), q)
         == (if q in TouchedQubits(operations[n]) then LayerAt(operations, n) else FrontOf(Front(operations[..n]), q))
  {
    assert operations[..n + 1][..n] == operations[..n];
    var qubits, before := TouchedQubits(operations[n]), Front(operations[..n]);
    if |qubits| > 0 { RaisedFront(before, qubits, MaxFront(qubits, before) + 1, q); }
  }

  /** A qubit's layers go up: an operation lies above every earlier one on a qubit of its own. */
  lemma LayerAboveFront(operations: seq<Operation>, n: nat, q: nat)
    requires n < |operations| && q in TouchedQubits(operations[n])
    ensures LayerAt(operations, n) > FrontOf(Front(operations[..n]), q)
  {
    MaxFrontBounds(TouchedQubits(operations[n]), Front(operations[..n]));
  }

  /** After an operation, the front of its qubits stays at or above its layer. */
  lemma {:induction false} FrontKeepsUp(operations: seq<Operation>, i: nat, n: nat, q: nat)
    requires i < n <= |operations| && q in TouchedQubits(operations[i])
    ensures FrontOf(Front(operations[..n]), q) >= LayerAt(operations, i)
    decreases n
  {
    hide LayerAt, FrontOf;
    FrontStep(operations, n - 1, q);
    if i < n - 1 {
      FrontKeepsUp(operations, i, n - 1, q);
      if q in TouchedQubits(operations[n - 1]) { LayerAboveFront(operations, n - 1, q); }
    }
  }

  /** Every qubit's front is at most the top layer. */
  lemma {:induction false} FrontBelowTop(operations: seq<Operation>, n: nat, q: nat)
    requires n <= |operations|
    ensures FrontOf(Front(operations[..n]), q) <= TopLayer(operations, n)
    decreases n
  {
    hide LayerAt, FrontOf;
    if n == 0 {
      NoFront(q);
      assert operations[..0] == [];
    } else {
      FrontBelowTop(operations, n - 1, q);
      FrontStep(operations, n - 1, q);
    }
  }

  lemma NoFront(q: nat)
    ensures FrontOf(Front([]), q) == 0
  {
  }

  /** The running top rises by at most one layer at a time. */
  lemma TopRisesByOne(operations: seq<Operation>, n: nat)
    requires n < |operations|
    ensures LayerAt(operations, n) <= TopLayer(operations, n) + 1
  {
    var qubits, before := TouchedQubits(operations[n]), Front(operations[..n]);
    MaxFrontBounds(qubits, before);
    if MaxFront(qubits, before) != 0 {
      var q :| q in qubits && FrontOf(before, q) == MaxFront(qubits, before);
      FrontBelowTop(operations, n, q);
    }
  }

  /** The top layer is reached: it is the front of some qubit. */
  lemma {:induction false} TopIsFront(operations: seq<Operation>, n: nat) returns (q: nat)
    requires n <= |operations| && TopLayer(operations, n) > 0
    ensures q in Front(operations[..n]) && Front(operations[..n])[q] == TopLayer(operations, n)
    decreases n
  {
    hide LayerAt;
    var qubits := TouchedQubits(operations[n - 1]);
    if LayerAt(operations, n - 1) > TopLayer(operations, n - 1) {
      TouchedWhenLayered(operations, n - 1);
      q := qubits[0];
      assert q in qubits;
    } else {
      q := TopIsFront(operations, n - 1);
      if q in qubits { LayerAboveFront(operations, n - 1, q); }
    }
    FrontStep(operations, n - 1, q);
  }

  lemma TouchedWhenLayered(operations: seq<Operation>, n: nat)
    requires n < |operations| && LayerAt(operations, n) > 0
    ensures |TouchedQubits(operations[n])| > 0
  {
  }

  // ---------------------------------------------------------------- depth

  /** The operations as the depth counts them: a conditional is its body. */
  function Unconditioned(operations: seq<Operation>): (bodies: seq<Operation>)
    ensures |bodies| == |operations|
    ensures forall i :: 0 <= i < |bodies| ==> bodies[i] == Plain(BodyOf(operations[i]))
  {
    seq(|operations|, i requires 0 <= i < |operations| => Plain(BodyOf(operations[i])))
  }

  predicate NoConditionals(operations: seq<Operation>) {
    forall i :: 0 <= i < |operations| ==> operations[i].Plain?
  }

  lemma NothingConditional(operations: seq<Operation>)
    requires NoConditionals(operations)
    ensures Unconditioned(operations) == operations
  {
  }

  method MaxOf(qubits: seq<nat>, depths: map<nat, nat>) returns (max: nat)
    ensures max == MaxFront(qubits, depths)
  {
    max := 0;
    for i := 0 to |qubits|
      invariant max == MaxFront(qubits[..i], depths)
    {
      assert qubits[..i + 1][..i] == qubits[..i];
      var depth := if qubits[i] in depths then depths[qubits[i]] else 0;
      if depth > max { max := depth; }
    }
    assert qubits[..|qubits|] == qubits;
  }

  method SetAll(depths: map<nat, nat>, qubits: seq<nat>, layer: nat) returns (raised: map<nat, nat>)
    ensures raised == Raise(depths, qubits, layer)
  {
    raised := depths;
    for i := 0 to |qubits|
      invariant raised == Raise(depths, qubits[..i], layer)
    {
      assert qubits[..i + 1][..i] == qubits[..i];
      raised := raised[qubits[i] := layer];
    }
    assert qubits[..|qubits|] == qubits;
  }

  method MaxValue(depths: map<nat, nat>) returns (max: nat)
    ensures forall q :: q in depths ==> depths[q] <= max
    ensures max == 0 || exists q :: q in depths && depths[q] == max
  {
    max := 0;
    var left := depths.Keys;
    while left != {}
      invariant left <= depths.Keys
      invariant forall q :: q in depths && q !in left ==> depths[q] <= max
      invariant max == 0 || exists q :: q in depths && depths[q] == max
      decreases |left|
    {
      var q :| q in left;
      if depths[q] > max { max := depths[q]; }
      left := left - {q};
    }
  }

  /** The depth is the top layer of all operations, the bodies of conditionals included. */
  method CircuitDepth(operations: seq<Operation>) returns (depth: nat)
    ensures depth == TopLayer(Unconditioned(operations), |operations|)
    ensures NoConditionals(operations) ==> depth == TopLayer(operations, |operations|)
  {
    hide FrontOf, MaxFront, Raise, TopLayer;
    ghost var bodies := Unconditioned(operations);
    var depths: map<nat, nat> := map[];
    for i := 0 to |operations|
      invariant depths == Front(bodies[..i])
    {
      assert bodies[..i + 1][..i] == bodies[..i];
      var qubits := TouchedQubits(Plain(BodyOf(operations[i])));
      if |qubits| > 0 {
        var max := MaxOf(qubits, depths);
        depths := SetAll(depths, qubits, max + 1);
      }
    }
    assert bodies[..|bodies|] == bodies;
    depth := MaxValue(depths);
    LargestIsTop(bodies, depth);
    if NoConditionals(operations) { NothingConditional(operations); }
  }

  lemma LargestIsTop(operations: seq<Operation>, depth: nat)
    requires forall q :: q in Front(operations) ==> Front(operations)[q] <= depth
    requires depth == 0 || exists q :: q in Front(operations) && Front(operations)[q] == depth
    ensures depth == TopLayer(operations, |operations|)
  {
    assert operations[..|operations|] == operations;
    if depth != 0 {
      var q :| q in Front(operations) && Front(operations)[q] == depth;
      FrontBelowTop(operations, |operations|, q);
    }
    if TopLayer(operations, |operations|) > 0 {
      var q := TopIsFront(operations, |operations|);
    }
  }
}
