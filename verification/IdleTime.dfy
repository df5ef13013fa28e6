/** The schedule dynamical decoupling goes by, and which qubits it pulses when (src/engine/decoupling.ts:59-170). */
module IdleTime {
  import opened Options
  import opened Circuits
  import opened Layering
  import opened Decoupling

  // ---------------------------------------------------------------- the schedule

  /** The operation occupies the qubit; barriers and conditionals occupy none. */
  predicate ActsOn(operation: Operation, q: nat) {
    match operation
    case Plain(Apply(gate)) => q in gate.qubits
    case Plain(Measure(qubit, _)) => q == qubit
    case Plain(Reset(qubit)) => q == qubit
    case _ => false
  }

  /** Two operations share a qubit. */
  ghost predicate Meet(a: Operation, b: Operation) {
    exists q: nat :: ActsOn(a, q) && ActsOn(b, q)
  }

  /**
   * An operation comes one step after the latest earlier one it shares a qubit with; step 0 is for those on no qubit.
   */
  ghost predicate IsStep(operations: seq<Operation>, steps: seq<nat>, i: nat)
    requires |steps| == |operations| && i < |operations|
  {
    if !Meet(operations[i], operations[i]) then steps[i] == 0
    else
      && steps[i] >= 1
      && (forall j :: 0 <= j < i && Meet(operations[j], operations[i]) ==> steps[j] < steps[i])
      && (steps[i] > 1 ==> exists j :: 0 <= j < i && Meet(operations[j], operations[i]) && steps[j] + 1 == steps[i])
  }

  ghost predicate IsSchedule(operations: seq<Operation>, steps: seq<nat>) {
    |steps| == |operations| && forall i :: 0 <= i < |operations| ==> IsStep(operations, steps, i)
  }

  lemma ActsIsTouched(operation: Operation, q: nat)
    ensures ActsOn(operation, q) <==> q in TouchedQubits(operation)
  {
  }

  lemma SharedRises(operations: seq<Operation>, j: nat, i: nat, q: nat)
    requires j < i < |operations| && ActsOn(operations[j], q) && ActsOn(operations[i], q)
    ensures LayerAt(operations, j) < LayerAt(operations, i)
  {
    ActsIsTouched(operations[j], q);
    ActsIsTouched(operations[i], q);
    FrontKeepsUp(operations, j, i, q);
    LayerAboveFront(operations, i, q);
  }

  /** Behind a front above zero stands an operation on that qubit. */
  lemma {:induction false} FrontHasCause(operations: seq<Operation>, n: nat, q: nat) returns (j: nat)
    requires n <= |operations| && FrontOf(Front(operations[..n]), q) > 0
    ensures j < n && ActsOn(operations[j], q) && LayerAt(operations, j) == FrontOf(Front(operations[..n]), q)
    decreases n
  {
    hide LayerAt, FrontOf, ActsOn;
    EmptyFront(operations, q);
    FrontStep(operations, n - 1, q);
    ActsIsTouched(operations[n - 1], q);
    if ActsOn(operations[n - 1], q) { j := n - 1; } else { j := FrontHasCause(operations, n - 1, q); }
  }

  lemma EmptyFront(operations: seq<Operation>, q: nat)
    ensures FrontOf(Front(operations[..0]), q) == 0
  {
    NoFront(q);
    assert operations[..0] == [];
  }

  function LayersOf(operations: seq<Operation>): (layers: seq<nat>)
    ensures |layers| == |operations| && forall i :: 0 <= i < |layers| ==> layers[i] == LayerAt(operations, i)
  {
    seq(|operations|, i requires 0 <= i < |operations| => LayerAt(operations, i))
  }

  lemma LayersStep(operations: seq<Operation>, i: nat)
    requires i < |operations|
    ensures IsStep(operations, LayersOf(operations), i)
  {
    var qubits, before := TouchedQubits(operations[i]), Front(operations[..i]);
    forall q: nat ensures ActsOn(operations[i], q) <==> q in qubits { ActsIsTouched(operations[i], q); }
    forall j | 0 <= j < i && Meet(operations[j], operations[i])
      ensures LayerAt(operations, j) < LayerAt(operations, i)
    {
      var q: nat :| ActsOn(operations[j], q) && ActsOn(operations[i], q);
      SharedRises(operations, j, i, q);
    }
    if |qubits| > 0 {
      assert ActsOn(operations[i], qubits[0]);
      MaxFrontBounds(qubits, before);
      if MaxFront(qubits, before) > 0 {
        var q :| q in qubits && FrontOf(before, q) == MaxFront(qubits, before);
        var j := FrontHasCause(operations, i, q);
        assert Meet(operations[j], operations[i]);
      }
    }
  }

  /** The layers are a schedule, and the only one. */
  lemma LayersAreTheSchedule(operations: seq<Operation>, steps: seq<nat>)
    ensures IsSchedule(operations, steps) <==> steps == LayersOf(operations)
  {
    hide LayerAt, IsStep;
    forall i | 0 <= i < |operations| ensures IsStep(operations, LayersOf(operations), i) { LayersStep(operations, i); }
    if IsSchedule(operations, steps) {
      forall i | 0 <= i < |operations| ensures steps[i] == LayersOf(operations)[i] {
        StepIsForced(operations, steps, LayersOf(operations), i);
      }
    }
  }

  lemma {:induction false} StepIsForced(operations: seq<Operation>, a: seq<nat>, b: seq<nat>, i: nat)
    requires IsSchedule(operations, a) && IsSchedule(operations, b) && i < |operations|
    ensures a[i] == b[i]
    decreases i
  {
    hide Meet;
    forall j | 0 <= j < i ensures a[j] == b[j] { StepIsForced(operations, a, b, j); }
    assert IsStep(operations, a, i) && IsStep(operations, b, i);
  }

  // ---------------------------------------------------------------- idle qubits

  /** In that step the qubit waits: used before, not now, and neither measured nor reset before. */
  ghost predicate IsIdle(operations: seq<Operation>, steps: seq<nat>, step: nat, q: nat)
    requires |steps| == |operations|
  {
    && (exists i :: 0 <= i < |operations| && ActsOn(operations[i], q) && steps[i] < step)
    && (forall i :: 0 <= i < |operations| && ActsOn(operations[i], q) ==> steps[i] != step)
    && forall i :: 0 <= i < |operations| && ActsOn(operations[i], q) && steps[i] < step ==>
         operations[i].Plain? && operations[i].simple.Apply?
  }

  lemma IdleIsWindow(operations: seq<Operation>, step: nat, q: nat)
    ensures IsIdle(operations, LayersOf(operations), step, q) <==> IsWindow(operations, step, q)
  {
    hide LayerAt;
    forall i | 0 <= i < |operations| ensures ActsOn(operations[i], q) <==> q in TouchedQubits(operations[i]) {
      ActsIsTouched(operations[i], q);
    }
  }

  lemma {:induction false} TouchedIsKnown(operations: seq<Operation>, n: nat, i: nat, q: nat)
    requires i < n <= |operations| && q in TouchedQubits(operations[i])
    ensures q in QubitsUpto(operations, n)
    decreases n
  {
    NewIsKnown(QubitsUpto(operations, n - 1), TouchedQubits(operations[n - 1]), q);
    if i < n - 1 { TouchedIsKnown(operations, n - 1, i, q); }
  }

  lemma {:induction false} NewIsKnown(known: seq<nat>, qubits: seq<nat>, q: nat)
    ensures q in WithNew(known, qubits) <==> q in known || q in qubits
    decreases |qubits|
  {
    if |qubits| > 0 {
      NewIsKnown(known, qubits[..|qubits| - 1], q);
      assert q in qubits <==> q in qubits[..|qubits| - 1] || q == qubits[|qubits| - 1];
    }
  }

  lemma {:induction false} NewOnce(known: seq<nat>, qubits: seq<nat>)
    requires DistinctQubits(known)
    ensures DistinctQubits(WithNew(known, qubits))
    decreases |qubits|
  {
    if |qubits| > 0 { NewOnce(known, qubits[..|qubits| - 1]); }
  }

  lemma {:induction false} KnownOnce(operations: seq<Operation>, n: nat)
    requires n <= |operations|
    ensures DistinctQubits(QubitsUpto(operations, n))
    decreases n
  {
    if n > 0 {
      KnownOnce(operations, n - 1);
      NewOnce(QubitsUpto(operations, n - 1), TouchedQubits(operations[n - 1]));
    }
  }

  lemma {:induction false} WindowsOnce(operations: seq<Operation>, layer: nat, qubits: seq<nat>)
    requires DistinctQubits(qubits)
    ensures DistinctQubits(WindowsAmong(operations, layer, qubits))
    decreases |qubits|
  {
    hide IsWindow;
    if |qubits| > 0 {
      var front := qubits[..|qubits| - 1];
      WindowsOnce(operations, layer, front);
      WindowsAreWindows(operations, layer, front);
    }
  }

  /** The windows of a layer are the idle qubits, each once. */
  lemma WindowsAreIdle(operations: seq<Operation>, layer: nat, q: nat)
    ensures q in Windows(operations, layer) <==> IsIdle(operations, LayersOf(operations), layer, q)
    ensures DistinctQubits(Windows(operations, layer))
  {
    var known := QubitsUpto(operations, |operations|);
    WindowsAreWindows(operations, layer, known);
    IdleIsWindow(operations, layer, q);
    KnownOnce(operations, |operations|);
    WindowsOnce(operations, layer, known);
    if HasEntered(operations, |operations|, layer, q) {
      var i :| 0 <= i < |operations| && q in TouchedQubits(operations[i]) && LayerAt(operations, i) <= layer;
      TouchedIsKnown(operations, |operations|, i, q);
    }
  }

  // ---------------------------------------------------------------- the pulses

  /** The gates of a block that act on one qubit alone, in order. */
  function OnQubit(block: seq<Operation>, q: nat): seq<GateName> {
    if |block| == 0 then []
    else
      var last := block[|block| - 1];
      OnQubit(block[..|block| - 1], q)
        + if last.Plain? && last.simple.Apply? && last.simple.gate.qubits == [q] then [last.simple.gate.name] else []
  }

  lemma {:induction false} OnQubitConcat(a: seq<Operation>, b: seq<Operation>, q: nat)
    ensures OnQubit(a + b, q) == OnQubit(a, q) + OnQubit(b, q)
    decreases |b|
  {
    if |b| == 0 {
      assert a + b == a;
    } else {
      OnQubitConcat(a, b[..|b| - 1], q);
      assert (a + b)[..|a + b| - 1] == a + b[..|b| - 1];
    }
  }

  lemma {:induction false} OneSequence(names: seq<GateName>, qubit: nat, q: nat)
    ensures OnQubit(Pulses(names, qubit), q) == if q == qubit then names else []
    decreases |names|
  {
    if |names| > 0 {
      var front := names[..|names| - 1];
      OneSequence(front, qubit, q);
      assert Pulses(names, qubit)[..|names| - 1] == Pulses(front, qubit);
    }
  }

  lemma {:induction false} BlockOnQubit(names: seq<GateName>, qubits: seq<nat>, q: nat)
    requires DistinctQubits(qubits)
    ensures OnQubit(PulseBlock(names, qubits), q) == if q in qubits then names else []
    decreases |qubits|
  {
    if |qubits| > 0 {
      var front, last := qubits[..|qubits| - 1], qubits[|qubits| - 1];
      BlockOnQubit(names, front, q);
      OneSequence(names, last, q);
      OnQubitConcat(PulseBlock(names, front), Pulses(names, last), q);
      assert q in qubits <==> q in front || q == last;
    }
  }

  /**
   * In front of the first operation of a layer every idle qubit gets the whole sequence of pulses and no other qubit
   * gets one; in front of any other operation nothing is inserted.
   */
  lemma IdleQubitsArePulsed(operations: seq<Operation>, names: seq<GateName>, n: nat, q: nat)
    requires n < |operations|
    ensures var steps := LayersOf(operations);
      var isFirst := steps[n] > 0 && forall i :: 0 <= i < n ==> steps[i] < steps[n];
      var wanted := if IsIdle(operations, steps, steps[n], q) then names else [];
      && (isFirst ==> OnQubit(PulsesBefore(operations, names, n), q) == wanted)
      && (!isFirst ==> PulsesBefore(operations, names, n) == [])
  {
    hide LayerAt, OnQubit, PulseBlock, Windows, IsIdle;
    var layer := LayerAt(operations, n);
    TopIsLargest(operations, n);
    WindowsAreIdle(operations, layer, q);
    BlockOnQubit(names, Windows(operations, layer), q);
  }

  lemma {:induction false} TopIsLargest(operations: seq<Operation>, n: nat)
    requires n <= |operations|
    ensures forall i :: 0 <= i < n ==> LayerAt(operations, i) <= TopLayer(operations, n)
    ensures TopLayer(operations, n) > 0 ==> exists i :: 0 <= i < n && LayerAt(operations, i) == TopLayer(operations, n)
    decreases n
  {
    hide LayerAt;
    if n > 0 { TopIsLargest(operations, n - 1); }
  }
}
