/**
 * When one operation list may replace another: whatever the first computes, the second computes up to one global
 * sign, whatever the measurement outcomes and the state it starts from.
 */
module Refinement {
  import opened Circuits
  import opened ComplexNumbers
  import opened Semantics
  import opened OperatorLaws
  import opened PeepholeRules
  import opened Options

  /** Two branches agree on everything classical, and on the state up to the sign s. */
  ghost predicate Agree(s: real, v: World, w: World) {
    v.clbits == w.clbits && v.draws == w.draws && Signed(s, v.state, w.state)
  }

  ghost predicate AgreeIfRun(s: real, v: Option<World>, w: Option<World>) {
    v.Some? ==> w.Some? && Agree(s, v.value, w.value)
  }

  ghost predicate Refines(trig: Trig, s: real, before: seq<Operation>, after: seq<Operation>) {
    forall outcome: nat -> bool, w: World :: AgreeIfRun(s, Run(trig, outcome, before, w), Run(trig, outcome, after, w))
  }

  ghost predicate RefinesUpToPhase(trig: Trig, before: seq<Operation>, after: seq<Operation>) {
    exists s: real :: IsSign(s) && Refines(trig, s, before, after)
  }

  lemma RefinesAt(
    trig: Trig, s: real, before: seq<Operation>, after: seq<Operation>, outcome: nat -> bool, w: World)
    requires Refines(trig, s, before, after)
    ensures AgreeIfRun(s, Run(trig, outcome, before, w), Run(trig, outcome, after, w))
  {
  }

  lemma AgreeTrans(s: real, t: real, u: Option<World>, v: Option<World>, w: Option<World>)
    requires IsSign(s) && IsSign(t) && AgreeIfRun(s, u, v) && AgreeIfRun(t, v, w)
    ensures IsSign(s * t) && AgreeIfRun(s * t, u, w)
  {
    hide Signed;
    ScaleProduct(s, t, ZERO);
    if u.Some? {
      SignedTrans(s, t, u.value.state, v.value.state, w.value.state);
    }
  }

  lemma RefinesTrans(
    trig: Trig, s: real, t: real, first: seq<Operation>, second: seq<Operation>, third: seq<Operation>)
    requires IsSign(s) && IsSign(t) && Refines(trig, s, first, second) && Refines(trig, t, second, third)
    ensures IsSign(s * t) && Refines(trig, s * t, first, third)
  {
    hide AgreeIfRun;
    forall outcome: nat -> bool, w: World
      ensures AgreeIfRun(s * t, Run(trig, outcome, first, w), Run(trig, outcome, third, w))
    {
      AgreeTrans(s, t, Run(trig, outcome, first, w), Run(trig, outcome, second, w), Run(trig, outcome, third, w));
    }
    ScaleProduct(s, t, ZERO);
  }

  lemma PhaseTrans(trig: Trig, first: seq<Operation>, second: seq<Operation>, third: seq<Operation>)
    requires RefinesUpToPhase(trig, first, second) && RefinesUpToPhase(trig, second, third)
    ensures RefinesUpToPhase(trig, first, third)
  {
    hide Refines;
    var s: real :| IsSign(s) && Refines(trig, s, first, second);
    var t: real :| IsSign(t) && Refines(trig, t, second, third);
    RefinesTrans(trig, s, t, first, second, third);
  }

  lemma PhaseRefl(trig: Trig, operations: seq<Operation>)
    ensures Refines(trig, 1.0, operations, operations) && RefinesUpToPhase(trig, operations, operations)
  {
    hide Signed;
    forall outcome: nat -> bool, w: World
      ensures AgreeIfRun(1.0, Run(trig, outcome, operations, w), Run(trig, outcome, operations, w))
    {
      var v := Run(trig, outcome, operations, w);
      if v.Some? { SignedSame(v.value.state); }
    }
  }

  lemma SignedSame(psi: State)
    ensures Signed(1.0, psi, psi)
  {
    forall k: set<int> ensures psi(k) == Scale(1.0, psi(k)) { ScaleOne(psi(k)); }
  }

  // ---------------------------------------------------------------- a sign passes through every operation

  lemma SimpleSigned(trig: Trig, outcome: nat -> bool, simple: Simple, s: real, v: World, w: World)
    requires IsSign(s) && Agree(s, v, w)
    ensures AgreeIfRun(s, StepSimple(trig, outcome, simple, v), StepSimple(trig, outcome, simple, w))
  {
    hide Signed, After, OperatorOf;
    match simple {
      case Apply(gate) =>
        var op := OperatorOf(trig, gate);
        if op.Some? { AfterSigned(op.value, s, v.state, w.state); }
      case Measure(qubit, clbit) =>
        ProjectSigned(qubit, outcome(v.draws), s, v.state, w.state);
      case Reset(qubit) =>
        var o := outcome(v.draws);
        ProjectSigned(qubit, o, s, v.state, w.state);
        AfterSigned(Matrix(FLIP, {}, qubit), s, Project(v.state, qubit, o), Project(w.state, qubit, o));
      case Barrier(_) =>
    }
  }

  lemma StepSigned(trig: Trig, outcome: nat -> bool, operation: Operation, s: real, v: World, w: World)
    requires IsSign(s) && Agree(s, v, w)
    ensures AgreeIfRun(s, Step(trig, outcome, operation, v), Step(trig, outcome, operation, w))
  {
    hide StepSimple, Signed;
    match operation {
      case Plain(simple) => SimpleSigned(trig, outcome, simple, s, v, w);
      case Conditional(_, body) => SimpleSigned(trig, outcome, body, s, v, w);
    }
  }

  lemma {:induction false} RunSigned(
    trig: Trig, outcome: nat -> bool, operations: seq<Operation>, s: real, v: World, w: World)
    requires IsSign(s) && Agree(s, v, w)
    ensures AgreeIfRun(s, Run(trig, outcome, operations, v), Run(trig, outcome, operations, w))
    decreases |operations|
  {
    hide Step, Signed;
    if |operations| > 0 {
      StepSigned(trig, outcome, operations[0], s, v, w);
      var next := Step(trig, outcome, operations[0], v);
      if next.Some? {
        RunSigned(trig, outcome, operations[1..], s, next.value, Step(trig, outcome, operations[0], w).value);
      }
    }
  }

  /** A replacement is sound in every context. */
  lemma RefinesInContext(
    trig: Trig, s: real, left: seq<Operation>, before: seq<Operation>, after: seq<Operation>, right: seq<Operation>)
    requires IsSign(s) && Refines(trig, s, before, after)
    ensures Refines(trig, s, left + before + right, left + after + right)
  {
    hide Run, Agree;
    forall outcome: nat -> bool, w: World
      ensures AgreeIfRun(s, Run(trig, outcome, left + before + right, w), Run(trig, outcome, left + after + right, w))
    {
      ThreeRuns(trig, outcome, left, before, right, w);
      ThreeRuns(trig, outcome, left, after, right, w);
      var start := Run(trig, outcome, left, w);
      if start.Some? {
        var mid := Run(trig, outcome, before, start.value);
        RefinesAt(trig, s, before, after, outcome, start.value);
        if mid.Some? {
          RunSigned(trig, outcome, right, s, mid.value, Run(trig, outcome, after, start.value).value);
        }
      }
    }
  }

  lemma ThreeRuns(
    trig: Trig, outcome: nat -> bool, left: seq<Operation>, middle: seq<Operation>, right: seq<Operation>, w: World)
    ensures Run(trig, outcome, left + middle + right, w)
         == var start := Run(trig, outcome, left, w);
            if start.None? then None
            else
              var mid := Run(trig, outcome, middle, start.value);
              if mid.None? then None else Run(trig, outcome, right, mid.value)
  {
    hide Run;
    RunConcat(trig, outcome, left + middle, right, w);
    RunConcat(trig, outcome, left, middle, w);
  }

  // ---------------------------------------------------------------- lists of gates

  predicate AllGates(operations: seq<Operation>) {
    forall i :: 0 <= i < |operations| ==> IsGate(operations[i])
  }

  /** The operators of a list of gates, or nothing if the engine refuses one of them. */
  function Operators(trig: Trig, operations: seq<Operation>): Option<seq<Operator>>
    requires AllGates(operations)
  {
    if |operations| == 0 then Some([])
    else
      var first := OperatorOf(trig, GateOf(operations[0]));
      var rest := Operators(trig, operations[1..]);
      if first.None? || rest.None? then None else Some([first.value] + rest.value)
  }

  function Through(operators: seq<Operator>, psi: State): State {
    if |operators| == 0 then psi else Through(operators[1..], After(operators[0], psi))
  }

  lemma {:induction false} GatesRun(trig: Trig, outcome: nat -> bool, operations: seq<Operation>, w: World)
    requires AllGates(operations)
    ensures Run(trig, outcome, operations, w)
         == var ops := Operators(trig, operations);
            if ops.None? then None else Some(w.(state := Through(ops.value, w.state)))
    decreases |operations|
  {
    hide OperatorOf, After;
    if |operations| > 0 {
      var first := OperatorOf(trig, GateOf(operations[0]));
      if first.Some? {
        GatesRun(trig, outcome, operations[1..], w.(state := After(first.value, w.state)));
        var rest := Operators(trig, operations[1..]);
        if rest.Some? { assert ([first.value] + rest.value)[1..] == rest.value; }
      }
    }
  }

  ghost predicate SameThrough(s: real, first: seq<Operator>, second: seq<Operator>) {
    forall psi: State :: Signed(s, Through(first, psi), Through(second, psi))
  }

  lemma RefinesByOperators(trig: Trig, s: real, before: seq<Operation>, after: seq<Operation>)
    requires AllGates(before) && AllGates(after)
    requires Operators(trig, before).Some? ==>
               && Operators(trig, after).Some?
               && SameThrough(s, Operators(trig, before).value, Operators(trig, after).value)
    ensures Refines(trig, s, before, after)
  {
    hide Run, Through, Operators, Signed;
    forall outcome: nat -> bool, w: World
      ensures AgreeIfRun(s, Run(trig, outcome, before, w), Run(trig, outcome, after, w))
    {
      GatesRun(trig, outcome, before, w);
      GatesRun(trig, outcome, after, w);
    }
  }

  lemma FirstOperator(trig: Trig, gate: Gate, rest: seq<Operation>)
    requires AllGates(rest)
    ensures Operators(trig, [WithGate(gate)] + rest)
         == var first, others := OperatorOf(trig, gate), Operators(trig, rest);
            if first.None? || others.None? then None else Some([first.value] + others.value)
  {
    hide OperatorOf;
    assert ([WithGate(gate)] + rest)[1..] == rest;
  }

  lemma OneOperator(trig: Trig, gate: Gate)
    ensures Operators(trig, [WithGate(gate)])
         == var op := OperatorOf(trig, gate); if op.None? then None else Some([op.value])
  {
    hide OperatorOf;
    assert [WithGate(gate)] + [] == [WithGate(gate)];
    FirstOperator(trig, gate, []);
    var op := OperatorOf(trig, gate);
    if op.Some? { assert [op.value] + [] == [op.value]; }
  }

  lemma TwoOperators(trig: Trig, first: Gate, second: Gate)
    ensures Operators(trig, [WithGate(first), WithGate(second)])
         == var p, q := OperatorOf(trig, first), OperatorOf(trig, second);
            if p.None? || q.None? then None else Some([p.value, q.value])
  {
    hide OperatorOf, Operators;
    assert [WithGate(first)] + [WithGate(second)] == [WithGate(first), WithGate(second)];
    FirstOperator(trig, first, [WithGate(second)]);
    OneOperator(trig, second);
    var p, q := OperatorOf(trig, first), OperatorOf(trig, second);
    if p.Some? && q.Some? { assert [p.value] + [q.value] == [p.value, q.value]; }
  }

  lemma ThreeOperators(trig: Trig, first: Gate, second: Gate, third: Gate)
    ensures Operators(trig, [WithGate(first), WithGate(second), WithGate(third)])
         == var p, q, r := OperatorOf(trig, first), OperatorOf(trig, second), OperatorOf(trig, third);
            if p.None? || q.None? || r.None? then None else Some([p.value, q.value, r.value])
  {
    hide OperatorOf, Operators;
    assert [WithGate(first)] + [WithGate(second), WithGate(third)]
      == [WithGate(first), WithGate(second), WithGate(third)];
    FirstOperator(trig, first, [WithGate(second), WithGate(third)]);
    TwoOperators(trig, second, third);
    var p, q, r := OperatorOf(trig, first), OperatorOf(trig, second), OperatorOf(trig, third);
    if p.Some? && q.Some? && r.Some? { assert [p.value] + [q.value, r.value] == [p.value, q.value, r.value]; }
  }

  lemma ThroughFirst(p: Operator, rest: seq<Operator>, psi: State)
    ensures Through([p] + rest, psi) == Through(rest, After(p, psi))
  {
    hide After;
    assert ([p] + rest)[1..] == rest;
  }

  lemma ThroughSmall(p: Operator, q: Operator, r: Operator, psi: State)
    ensures Through([], psi) == psi
    ensures Through([p], psi) == After(p, psi)
    ensures Through([p, q], psi) == After(q, After(p, psi))
    ensures Through([p, q, r], psi) == After(r, After(q, After(p, psi)))
  {
    hide After;
    assert [p] + [] == [p] && [q] + [] == [q] && [r] + [] == [r];
    assert [p] + [q] == [p, q] && [q] + [r] == [q, r] && [p] + [q, r] == [p, q, r];
    ThroughFirst(p, [], psi);
    ThroughFirst(p, [q], psi);
    ThroughFirst(q, [], After(p, psi));
    ThroughFirst(p, [q, r], psi);
    ThroughFirst(q, [r], After(p, psi));
    ThroughFirst(r, [], After(q, After(p, psi)));
  }

  // ---------------------------------------------------------------- equality of operator lists

  lemma {:induction false} OperatorsConcat(trig: Trig, first: seq<Operation>, second: seq<Operation>)
    requires AllGates(first) && AllGates(second)
    ensures Operators(trig, first + second)
         == var p, q := Operators(trig, first), Operators(trig, second);
            if p.None? || q.None? then None else Some(p.value + q.value)
    decreases |first|
  {
    hide OperatorOf;
    var q := Operators(trig, second);
    if |first| == 0 {
      assert first + second == second;
      if q.Some? { assert [] + q.value == q.value; }
    } else {
      assert (first + second)[1..] == first[1..] + second;
      OperatorsConcat(trig, first[1..], second);
      var head, rest := OperatorOf(trig, GateOf(first[0])), Operators(trig, first[1..]);
      if head.Some? && rest.Some? && q.Some? {
        assert [head.value] + (rest.value + q.value) == ([head.value] + rest.value) + q.value;
      }
    }
  }

  lemma {:induction false} ThroughConcat(first: seq<Operator>, second: seq<Operator>, psi: State)
    ensures Through(first + second, psi) == Through(second, Through(first, psi))
    decreases |first|
  {
    hide After;
    if |first| == 0 {
      assert first + second == second;
    } else {
      assert (first + second)[1..] == first[1..] + second;
      ThroughConcat(first[1..], second, After(first[0], psi));
    }
  }

  lemma {:induction false} ThroughKeepsEqual(operators: seq<Operator>, psi: State, phi: State)
    requires Signed(1.0, psi, phi)
    ensures Signed(1.0, Through(operators, psi), Through(operators, phi))
    decreases |operators|
  {
    hide After, Signed;
    if |operators| > 0 {
      AfterSigned(operators[0], 1.0, psi, phi);
      ThroughKeepsEqual(operators[1..], After(operators[0], psi), After(operators[0], phi));
    }
  }

  lemma EqualTrans(psi: State, phi: State, chi: State)
    requires Signed(1.0, psi, phi) && Signed(1.0, phi, chi)
    ensures Signed(1.0, psi, chi)
  {
    hide Signed;
    SignedTrans(1.0, 1.0, psi, phi, chi);
    assert 1.0 * 1.0 == 1.0;
  }

  /** Replacing a block that does nothing inside a longer list. */
  lemma DropInside(left: seq<Operator>, block: seq<Operator>, right: seq<Operator>)
    requires SameThrough(1.0, block, [])
    ensures SameThrough(1.0, left + block + right, left + right)
  {
    hide Signed;
    forall psi: State ensures Signed(1.0, Through(left + block + right, psi), Through(left + right, psi)) {
      ThroughConcat(left + block, right, psi);
      ThroughConcat(left, block, psi);
      ThroughConcat(left, right, psi);
      var middle := Through(left, psi);
      assert Signed(1.0, Through(block, middle), Through([], middle));
      assert Through([], middle) == middle;
      ThroughKeepsEqual(right, Through(block, middle), middle);
    }
  }

  lemma SameTrans(p: seq<Operator>, q: seq<Operator>, r: seq<Operator>)
    requires SameThrough(1.0, p, q) && SameThrough(1.0, q, r)
    ensures SameThrough(1.0, p, r)
  {
    hide Signed, Through;
    forall psi: State ensures Signed(1.0, Through(p, psi), Through(r, psi)) {
      EqualTrans(Through(p, psi), Through(q, psi), Through(r, psi));
    }
  }

  lemma SameRefl(p: seq<Operator>)
    ensures SameThrough(1.0, p, p)
  {
    hide Signed, Through;
    forall psi: State ensures Signed(1.0, Through(p, psi), Through(p, psi)) { SignedSame(Through(p, psi)); }
  }

  lemma SameSym(p: seq<Operator>, q: seq<Operator>)
    requires SameThrough(1.0, p, q)
    ensures SameThrough(1.0, q, p)
  {
    hide Signed, Through;
    forall psi: State ensures Signed(1.0, Through(q, psi), Through(p, psi)) {
      SignedSym(Through(p, psi), Through(q, psi));
    }
  }

  // ---------------------------------------------------------------- sliding a gate along commuting gates

  /** Both gates are refused, or their operators commute. */
  ghost predicate Slides(trig: Trig, operation: Operation, gate: Gate) {
    && IsGate(operation)
    && var p, q := OperatorOf(trig, GateOf(operation)), OperatorOf(trig, gate);
       p.Some? && q.Some? ==> Commute(p.value, q.value)
  }

  lemma SignedSym(psi: State, phi: State)
    requires Signed(1.0, psi, phi)
    ensures Signed(1.0, phi, psi)
  {
    hide Scale;
    forall k: set<int> ensures psi(k) == Scale(1.0, phi(k)) {
      ScaleOne(psi(k)); SignedAt(1.0, psi, phi, k); ScaleOne(phi(k));
    }
  }

  lemma SwapNeighbours(trig: Trig, other: Gate, gate: Gate)
    requires Slides(trig, WithGate(other), gate)
    ensures Refines(trig, 1.0, [WithGate(other)] + [WithGate(gate)], [WithGate(gate)] + [WithGate(other)])
    ensures Refines(trig, 1.0, [WithGate(gate)] + [WithGate(other)], [WithGate(other)] + [WithGate(gate)])
  {
    hide OperatorOf, After, Operators, Through, Signed, Refines;
    TwoOperators(trig, other, gate);
    TwoOperators(trig, gate, other);
    var there, back := [WithGate(other), WithGate(gate)], [WithGate(gate), WithGate(other)];
    var p, q := OperatorOf(trig, other), OperatorOf(trig, gate);
    if p.Some? && q.Some? {
      forall psi: State
        ensures Signed(1.0, Through([p.value, q.value], psi), Through([q.value, p.value], psi))
        ensures Signed(1.0, Through([q.value, p.value], psi), Through([p.value, q.value], psi))
      {
        ThroughSmall(p.value, q.value, p.value, psi);
        ThroughSmall(q.value, p.value, p.value, psi);
        assert Signed(1.0, After(p.value, After(q.value, psi)), After(q.value, After(p.value, psi)));
        SignedSym(After(p.value, After(q.value, psi)), After(q.value, After(p.value, psi)));
      }
    }
    RefinesByOperators(trig, 1.0, there, back);
    RefinesByOperators(trig, 1.0, back, there);
    assert [WithGate(other)] + [WithGate(gate)] == there && [WithGate(gate)] + [WithGate(other)] == back;
  }

  /** A gate that slides along every operation of a block may stand on either side of it. */
  lemma {:induction false} Slide(trig: Trig, block: seq<Operation>, gate: Gate)
    requires forall i :: 0 <= i < |block| ==> Slides(trig, block[i], gate)
    ensures Refines(trig, 1.0, block + [WithGate(gate)], [WithGate(gate)] + block)
    ensures Refines(trig, 1.0, [WithGate(gate)] + block, block + [WithGate(gate)])
    decreases |block|
  {
    hide Refines, Slides, WithGate;
    var g := [WithGate(gate)];
    if |block| == 0 {
      assert block + g == g && g + block == g;
      PhaseRefl(trig, g);
    } else {
      var first, rest := block[..1], block[1..];
      SlidesIsGate(trig, block[0], gate);
      var other := GateOf(block[0]);
      assert first == [WithGate(other)];
      assert Slides(trig, WithGate(other), gate);
      SwapNeighbours(trig, other, gate);
      Slide(trig, rest, gate);
      // first rest g ~ first g rest ~ g first rest
      RefinesInContext(trig, 1.0, first, rest + g, g + rest, []);
      RefinesInContext(trig, 1.0, first, g + rest, rest + g, []);
      RefinesInContext(trig, 1.0, [], first + g, g + first, rest);
      RefinesInContext(trig, 1.0, [], g + first, first + g, rest);
      assert first + (rest + g) + [] == block + g;
      assert first + (g + rest) + [] == [] + (first + g) + rest;
      assert [] + (g + first) + rest == g + block;
      RefinesTrans(trig, 1.0, 1.0, block + g, first + (g + rest) + [], g + block);
      RefinesTrans(trig, 1.0, 1.0, g + block, first + (g + rest) + [], block + g);
    }
  }

  lemma SlidesIsGate(trig: Trig, operation: Operation, gate: Gate)
    requires Slides(trig, operation, gate)
    ensures IsGate(operation) && operation == WithGate(GateOf(operation))
  {
  }
}
