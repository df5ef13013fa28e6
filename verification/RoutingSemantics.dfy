/**
 * Routing preserves meaning: executing the routed circuit gives the source circuit's branch, carried through the
 * layout (src/engine/transpile.ts:138-277, src/engine/routing-verification.ts:5-24).
 */
module RoutingSemantics {
  import opened ComplexNumbers
  import opened Options
  import opened Circuits
  import opened Semantics
  import opened OperatorLaws
  import opened RoutingSpec
  import opened Conditionals
  import Bits

  /** The physical qubits that hold a logical one. */
  function Occupied(layout: Layout): set<int> {
    set l: nat | l < |layout| :: layout[l] as int
  }

  /** The logical basis state that a physical one carries. */
  function Pull(layout: Layout, k: set<int>): set<int> {
    set l: nat | l < |layout| && (layout[l] as int) in k :: l
  }

  /** Physical amplitudes carry the logical ones through the layout; unoccupied qubits are at 0. */
  ghost predicate Carries(layout: Layout, logical: State, physical: State) {
    forall k: set<int> :: physical(k) == if k <= Occupied(layout) then logical(Pull(layout, k)) else ZERO
  }

  /** The same branch of the same program, seen on logical and on physical qubits. */
  ghost predicate SameBranch(layout: Layout, w: World, v: World) {
    Carries(layout, w.state, v.state) && v.clbits == w.clbits && v.draws == w.draws
  }

  // ---------------------------------------------------------------- sets through a layout

  lemma PullMember(layout: Layout, k: set<int>, l: nat)
    requires l < |layout|
    ensures l in Pull(layout, k) <==> layout[l] in k
  {
  }

  lemma PullAdd(layout: Layout, k: set<int>, l: nat)
    requires Injective(layout) && l < |layout|
    ensures Pull(layout, k + {layout[l] as int}) == Pull(layout, k) + {l}
    ensures Pull(layout, k - {layout[l] as int}) == Pull(layout, k) - {l}
    ensures layout[l] in Occupied(layout)
  {
    forall j: nat | j < |layout| && j != l ensures layout[j] != layout[l] {
    }
  }

  lemma PullSwap(layout: Layout, k: set<int>, a: nat, b: nat)
    requires Injective(layout) && a < |layout| && b < |layout|
    ensures Pull(layout, SwapMembers(k, layout[a], layout[b])) == SwapMembers(Pull(layout, k), a, b)
    ensures SwapMembers(k, layout[a], layout[b]) <= Occupied(layout) <==> k <= Occupied(layout)
  {
    PullMember(layout, k, a);
    PullMember(layout, k, b);
    PullAdd(layout, k, a);
    PullAdd(layout, k, b);
    PullAdd(layout, k - {layout[a] as int}, b);
    PullAdd(layout, k - {layout[b] as int}, a);
  }

  function Exchanged(p: int, a: int, b: int): int {
    if p == a then b else if p == b then a else p
  }

  lemma SwapMembersMember(k: set<int>, a: int, b: int, p: int)
    requires a != b
    ensures p in SwapMembers(k, a, b) <==> Exchanged(p, a, b) in k
  {
  }

  lemma OccupiedThroughSwap(layout: Layout, a: nat, b: nat, p: int)
    requires a != b
    ensures p in Occupied(SwapLayout(layout, a, b)) <==> Exchanged(p, a, b) in Occupied(layout)
  {
    var layout' := SwapLayout(layout, a, b);
    if p in Occupied(layout') {
      var l: nat :| l < |layout'| && layout'[l] as int == p;
      assert layout[l] as int == Exchanged(p, a, b);
    }
    if Exchanged(p, a, b) in Occupied(layout) {
      var l: nat :| l < |layout| && layout[l] as int == Exchanged(p, a, b);
      assert layout'[l] as int == p;
    }
  }

  /** A SWAP of two physical qubits moves the layout and nothing else. */
  lemma PullThroughSwap(layout: Layout, k: set<int>, a: nat, b: nat)
    requires a != b
    ensures Pull(SwapLayout(layout, a, b), k) == Pull(layout, SwapMembers(k, a, b))
    ensures k <= Occupied(SwapLayout(layout, a, b)) <==> SwapMembers(k, a, b) <= Occupied(layout)
  {
    hide Occupied, SwapMembers;
    var layout', k' := SwapLayout(layout, a, b), SwapMembers(k, a, b);
    forall l: nat | l < |layout| ensures (layout'[l] as int) in k <==> (layout[l] as int) in k' {
      SwapMembersMember(k, a, b, layout[l]);
    }
    assert Pull(layout', k) == Pull(layout, k');
    if k <= Occupied(layout') {
      forall p | p in k' ensures p in Occupied(layout) {
        SwapMembersMember(k, a, b, p);
        OccupiedThroughSwap(layout, a, b, Exchanged(p, a, b));
      }
    }
    if k' <= Occupied(layout) {
      forall p | p in k ensures p in Occupied(layout') {
        SwapMembersMember(k, a, b, Exchanged(p, a, b));
        OccupiedThroughSwap(layout, a, b, p);
      }
    }
  }

  // ---------------------------------------------------------------- operators through a layout

  function RelocateSet(qubits: set<int>, layout: Layout): set<int> {
    set l: nat | l < |layout| && l in qubits :: layout[l] as int
  }

  predicate Within(op: Operator, width: nat) {
    forall q :: q in Support(op) ==> 0 <= q < width
  }

  function RelocateOperator(op: Operator, layout: Layout): Operator
    requires Within(op, |layout|)
  {
    match op
    case Matrix(m, controls, target) =>
      assert target in Support(op);
      Matrix(m, RelocateSet(controls, layout), layout[target])
    case Exchange(controls, a, b) =>
      assert a in Support(op) && b in Support(op);
      Exchange(RelocateSet(controls, layout), layout[a], layout[b])
  }

  lemma ControlsPull(layout: Layout, controls: set<int>, k: set<int>)
    requires forall q :: q in controls ==> 0 <= q < |layout|
    ensures RelocateSet(controls, layout) <= k <==> controls <= Pull(layout, k)
  {
    if RelocateSet(controls, layout) <= k {
      forall q | q in controls ensures q in Pull(layout, k) {
        assert layout[q] in RelocateSet(controls, layout);
      }
    }
    if controls <= Pull(layout, k) {
      forall p | p in RelocateSet(controls, layout) ensures p in k {
        var l: nat :| l < |layout| && l in controls && layout[l] as int == p;
        assert l in Pull(layout, k);
      }
    }
  }

  /** Coefficients and sources of a relocated operator are those of the original, pulled back. */
  lemma RelocatedPieces(op: Operator, layout: Layout, k: set<int>, second: bool)
    requires Injective(layout) && Within(op, |layout|)
    ensures var op' := RelocateOperator(op, layout);
      && Coefficient(op', k, second) == Coefficient(op, Pull(layout, k), second)
      && Pull(layout, Source(op', k, second)) == Source(op, Pull(layout, k), second)
      && (Source(op', k, second) <= Occupied(layout) <==> k <= Occupied(layout))
  {
    hide Injective, Pull, Occupied, RelocateSet;
    match op {
      case Matrix(m, controls, target) =>
        assert target in Support(op);
        assert forall q :: q in controls ==> q in Support(op);
        var t := layout[target];
        ControlsPull(layout, controls, k - {t as int});
        PullAdd(layout, k, target);
        PullMember(layout, k, target);
      case Exchange(controls, a, b) =>
        assert a in Support(op) && b in Support(op);
        assert forall q :: q in controls ==> q in Support(op);
        ControlsPull(layout, controls, k);
        PullSwap(layout, k, a, b);
    }
  }

  lemma TwoZeros(c: Complex, d: Complex)
    ensures Add(Mul(c, ZERO), Mul(d, ZERO)) == ZERO
  {
  }

  /** One operator, applied on both sides of a layout. */
  lemma OperatorCarried(op: Operator, layout: Layout, logical: State, physical: State)
    requires Injective(layout) && Within(op, |layout|) && Carries(layout, logical, physical)
    ensures Carries(layout, After(op, logical), After(RelocateOperator(op, layout), physical))
  {
    hide Injective, Pull, Occupied, Coefficient, Source, RelocateOperator, Within, Mul, Add;
    var op' := RelocateOperator(op, layout);
    forall k: set<int>
      ensures After(op', physical)(k) == if k <= Occupied(layout) then After(op, logical)(Pull(layout, k)) else ZERO
    {
      RelocatedPieces(op, layout, k, false);
      RelocatedPieces(op, layout, k, true);
      TwoZeros(Coefficient(op', k, false), Coefficient(op', k, true));
    }
  }

  /** An inserted SWAP acts as the identity on the logical state, with the layout following it. */
  lemma SwapCarried(layout: Layout, a: nat, b: nat, logical: State, physical: State)
    requires a != b && Carries(layout, logical, physical)
    ensures Carries(SwapLayout(layout, a, b), logical, After(Exchange({}, a, b), physical))
  {
    hide Pull, Occupied, SwapMembers, SwapLayout;
    var layout' := SwapLayout(layout, a, b);
    forall k: set<int>
      ensures After(Exchange({}, a, b), physical)(k)
        == if k <= Occupied(layout') then logical(Pull(layout', k)) else ZERO
    {
      PullThroughSwap(layout, k, a, b);
      AfterSwap({}, a, b, physical, k);
    }
  }

  lemma ProjectCarried(layout: Layout, l: nat, outcome: bool, logical: State, physical: State)
    requires Injective(layout) && l < |layout| && Carries(layout, logical, physical)
    ensures Carries(layout, Project(logical, l, outcome), Project(physical, layout[l], outcome))
  {
    hide Injective;
    forall k: set<int>
      ensures Project(physical, layout[l], outcome)(k)
           == if k <= Occupied(layout) then Project(logical, l, outcome)(Pull(layout, k)) else ZERO
    {
      PullMember(layout, k, l);
    }
  }

  // ---------------------------------------------------------------- gates through a layout

  /** Relocating a gate's operands relocates its operator, and refuses exactly when the gate itself is refused. */
  lemma GateRelocated(trig: Trig, gate: Gate, layout: Layout)
    requires Routable(Apply(gate), |layout|)
    ensures var op, op' := OperatorOf(trig, gate), OperatorOf(trig, gate.(qubits := Relocate(gate.qubits, layout)));
      && (op.Some? <==> op'.Some?)
      && (op.Some? ==> Within(op.value, |layout|) && op'.value == RelocateOperator(op.value, layout))
  {
    hide SingleQubitMatrix, Angles;
    var qs, qs' := gate.qubits, Relocate(gate.qubits, layout);
    if |qs| == 2 {
      assert RelocateSet({}, layout) == {};
      assert RelocateSet({qs[0] as int}, layout) == {qs'[0] as int};
    } else if |qs| == 1 {
      assert RelocateSet({}, layout) == {};
    }
  }

  // ---------------------------------------------------------------- operations

  lemma SimpleCarried(
    trig: Trig, outcome: nat -> bool, simple: Simple, layout: Layout, w: World, v: World)
    requires Routable(simple, |layout|) && Injective(layout) && SameBranch(layout, w, v)
    ensures var w', v' := StepSimple(trig, outcome, simple, w),
                          StepSimple(trig, outcome, RelocateSimple(simple, layout), v);
      && (w'.Some? <==> v'.Some?)
      && (w'.Some? ==> SameBranch(layout, w'.value, v'.value))
  {
    hide Injective, Carries, After, Project, OperatorOf, RelocateOperator;
    match simple {
      case Apply(gate) =>
        GateRelocated(trig, gate, layout);
        var op := OperatorOf(trig, gate);
        if op.Some? {
          OperatorCarried(op.value, layout, w.state, v.state);
        }
      case Measure(qubit, clbit) =>
        ProjectCarried(layout, qubit, outcome(w.draws), w.state, v.state);
      case Reset(qubit) =>
        var b := outcome(w.draws);
        ProjectCarried(layout, qubit, b, w.state, v.state);
        var flip := Matrix(FLIP, {}, qubit);
        FlipRelocated(qubit, layout);
        OperatorCarried(flip, layout, Project(w.state, qubit, b), Project(v.state, layout[qubit], b));
      case Barrier(_) =>
    }
  }

  lemma FlipRelocated(qubit: nat, layout: Layout)
    requires qubit < |layout|
    ensures Within(Matrix(FLIP, {}, qubit), |layout|)
    ensures RelocateOperator(Matrix(FLIP, {}, qubit), layout) == Matrix(FLIP, {}, layout[qubit])
  {
    assert RelocateSet({}, layout) == {};
  }

  lemma SwapStep(trig: Trig, outcome: nat -> bool, a: nat, b: nat, layout: Layout, w: World, v: World)
    requires a != b && SameBranch(layout, w, v)
    ensures var v' := Step(trig, outcome, SwapOn(a, b), v);
      v'.Some? && SameBranch(SwapLayout(layout, a, b), w, v'.value)
  {
    hide Carries, After;
    SwapCarried(layout, a, b, w.state, v.state);
    assert OperatorOf(trig, Gate(Swap, [], [a, b])) == Some(Exchange({}, a, b));
  }

  /** The SWAPs along a path leave the logical branch alone and move the layout along the walk. */
  lemma {:induction false} WalkCarried(
    trig: Trig, outcome: nat -> bool, path: seq<nat>, layout: Layout, w: World, v: World)
    requires SimplePath(path) && SameBranch(layout, w, v)
    ensures var v' := Run(trig, outcome, SwapsAlong(path), v);
      v'.Some? && SameBranch(Walk(layout, path), w, v'.value)
    decreases |path|
  {
    hide SameBranch, Step;
    if |path| > 2 {
      SwapStep(trig, outcome, path[0], path[1], layout, w, v);
      var v' := Step(trig, outcome, SwapOn(path[0], path[1]), v).value;
      WalkCarried(trig, outcome, path[1..], SwapLayout(layout, path[0], path[1]), w, v');
      assert SwapsAlong(path)[1..] == SwapsAlong(path[1..]);
    }
  }

  /** Under a condition that holds, the guarded operations run as they would without it. */
  lemma {:induction false} GuardHolds(
    trig: Trig, outcome: nat -> bool, condition: Condition, operations: seq<Operation>, v: World)
    requires Holds(WithoutBit(condition), v.clbits) == Some(true)
    requires forall k :: 0 <= k < |operations| ==> operations[k].Plain? && operations[k].simple.Apply?
    ensures Run(trig, outcome, Guard(condition, operations), v) == Run(trig, outcome, operations, v)
    decreases |operations|
  {
    hide OperatorOf, After, Holds;
    if |operations| > 0 {
      assert Guard(condition, operations)[1..] == Guard(condition, operations[1..]);
      var next := Step(trig, outcome, operations[0], v);
      if next.Some? { GuardHolds(trig, outcome, condition, operations[1..], next.value); }
    }
  }

  /** Under one that fails, nothing happens. */
  lemma {:induction false} GuardFails(
    trig: Trig, outcome: nat -> bool, condition: Condition, operations: seq<Operation>, v: World)
    requires Holds(WithoutBit(condition), v.clbits) == Some(false)
    ensures Run(trig, outcome, Guard(condition, operations), v) == Some(v)
    decreases |operations|
  {
    hide StepSimple, Holds;
    if |operations| > 0 {
      assert Guard(condition, operations)[1..] == Guard(condition, operations[1..]);
      GuardFails(trig, outcome, condition, operations[1..], v);
    }
  }

  lemma {:induction false} SwapsAreGates(path: seq<nat>, k: nat)
    requires k < |SwapsAlong(path)|
    ensures SwapsAlong(path)[k].Plain? && SwapsAlong(path)[k].simple.Apply?
    decreases |path|
  {
    if k > 0 { SwapsAreGates(path[1..], k - 1); }
  }

  /** The source step and the routed run agree: both are refused, or they end in the same branch. */
  ghost predicate EndAlike(layout: Layout, w: Option<World>, v: Option<World>) {
    (w.Some? <==> v.Some?) && (w.Some? ==> SameBranch(layout, w.value, v.value))
  }

  lemma PlainCarried(
    trig: Trig, outcome: nat -> bool, body: Simple, layout: Layout, path: seq<nat>, w: World, v: World)
    requires Routable(body, |layout|) && Injective(layout) && SameBranch(layout, w, v)
    requires IsTwoQubitGate(body) ==> SimplePath(path)
    ensures var routed := RouteSimple(body, layout, path);
      EndAlike(routed.layout, StepSimple(trig, outcome, body, w), Run(trig, outcome, routed.operations, v))
  {
    hide SameBranch, StepSimple, Injective, RelocateSimple, SimplePath;
    var routed := RouteSimple(body, layout, path);
    var last := RelocateSimple(body, routed.layout);
    WalkInjective(layout, path);
    if IsTwoQubitGate(body) {
      WalkCarried(trig, outcome, path, layout, w, v);
      var v1 := Run(trig, outcome, SwapsAlong(path), v).value;
      RunConcat(trig, outcome, SwapsAlong(path), [Plain(last)], v);
      SimpleCarried(trig, outcome, body, routed.layout, w, v1);
      RunOne(trig, outcome, Plain(last), v1);
    } else {
      assert routed.operations == [Plain(last)];
      SimpleCarried(trig, outcome, body, layout, w, v);
      RunOne(trig, outcome, Plain(last), v);
    }
  }

  /** A conditional that emits one guarded operation. */
  lemma OneGuarded(condition: Condition, body: Simple, layout: Layout, path: seq<nat>)
    requires Routable(body, |layout|) && (IsTwoQubitGate(body) ==> |path| <= 2)
    ensures RouteOperation(Conditional(condition, body), layout, path)
         == Routed([Conditional(WithoutBit(condition), RelocateSimple(body, layout))], layout)
  {
    hide RelocateSimple;
    var routed := RouteSimple(body, layout, path);
    assert routed.operations == [Plain(RelocateSimple(body, layout))];
  }

  lemma SwapsAreRouted(condition: Condition, body: Simple, layout: Layout, path: seq<nat>)
    requires Routable(body, |layout|) && IsTwoQubitGate(body)
    ensures var routed := RouteSimple(body, layout, path);
      && (forall k :: 0 <= k < |routed.operations| ==>
        routed.operations[k].Plain? && routed.operations[k].simple.Apply?)
      && RouteOperation(Conditional(condition, body), layout, path)
        == Routed(Guard(condition, routed.operations), routed.layout)
  {
    var routed := RouteSimple(body, layout, path);
    forall k | 0 <= k < |SwapsAlong(path)|
      ensures SwapsAlong(path)[k].Plain? && SwapsAlong(path)[k].simple.Apply?
    {
      SwapsAreGates(path, k);
    }
  }

  lemma BranchCongruent(layout: Layout, a: World, b: World, v: World)
    requires SameBranch(layout, a, v) && b.clbits == a.clbits && b.draws == a.draws
    requires forall k: set<int> :: b.state(k) == a.state(k)
    ensures SameBranch(layout, b, v)
  {
    hide Pull, Occupied;
  }

  lemma GuardedStep(trig: Trig, outcome: nat -> bool, condition: Condition, body: Simple, layout: Layout, v: World)
    requires Routable(body, |layout|)
    ensures Run(trig, outcome, [Conditional(WithoutBit(condition), RelocateSimple(body, layout))], v)
         == if Holds(WithoutBit(condition), v.clbits) == Some(true)
            then StepSimple(trig, outcome, RelocateSimple(body, layout), v) else Some(v)
  {
    hide StepSimple, RelocateSimple;
    RunOne(trig, outcome, Conditional(WithoutBit(condition), RelocateSimple(body, layout)), v);
  }

  lemma GuardedCarried(
    trig: Trig, outcome: nat -> bool, condition: Condition, body: Simple, layout: Layout, w: World, v: World)
    requires Routable(body, |layout|) && Injective(layout) && SameBranch(layout, w, v) && BitInRange(condition)
    requires DropIsHarmless(condition) || IsInert(trig, body)
    ensures EndAlike(layout, Step(trig, outcome, Conditional(condition, body), w),
                     Run(trig, outcome, [Conditional(WithoutBit(condition), RelocateSimple(body, layout))], v))
  {
    hide SameBranch, StepSimple, Injective, RelocateSimple, Holds, DropIsHarmless, IsInert, Routable;
    SameClassical(layout, w, v);
    SimpleCarried(trig, outcome, body, layout, w, v);
    GuardedStep(trig, outcome, condition, body, layout, v);
    HoldsDefined(condition, w.clbits);
    if DropIsHarmless(condition) {
      HarmlessHolds(condition, w.clbits);
    } else {
      InertStep(trig, outcome, body, w);
      var next := StepSimple(trig, outcome, body, w).value;
      BranchCongruent(layout, w, next, v);
      var carried := StepSimple(trig, outcome, RelocateSimple(body, layout), v).value;
      BranchCongruent(layout, next, w, carried);
    }
  }

  lemma HoldsDefined(condition: Condition, clbits: nat -> bool)
    requires BitInRange(condition)
    ensures Holds(condition, clbits).Some? && Holds(WithoutBit(condition), clbits).Some?
  {
  }

  /** One routed operation. A conditional must lose nothing by being routed. */
  lemma OperationCarried(
    trig: Trig, outcome: nat -> bool, operation: Operation, layout: Layout, path: seq<nat>, w: World, v: World)
    requires Routable(BodyOf(operation), |layout|) && Injective(layout) && SameBranch(layout, w, v)
    requires IsTwoQubitGate(BodyOf(operation)) ==> SimplePath(path)
    requires IsTransparent(trig, operation, path)
    ensures var first := RouteOperation(operation, layout, path);
      EndAlike(first.layout, Step(trig, outcome, operation, w), Run(trig, outcome, first.operations, v))
  {
    hide SameBranch, StepSimple, Injective, RelocateSimple, SimplePath, Holds, DropIsHarmless, IsInert, Routable,
         RouteSimple, Run;
    var body := BodyOf(operation);
    match operation {
      case Plain(_) => PlainCarried(trig, outcome, body, layout, path, w, v);
      case Conditional(condition, _) =>
        if IsTwoQubitGate(body) && |path| > 2 {
          SameClassical(layout, w, v);
          CannotFailHolds(condition, w.clbits);
          EmptyHasNoBit(condition);
          assert WithoutBit(condition) == condition;
          SwapsAreRouted(condition, body, layout, path);
          GuardHolds(trig, outcome, condition, RouteSimple(body, layout, path).operations, v);
          PlainCarried(trig, outcome, body, layout, path, w, v);
        } else {
          OneGuarded(condition, body, layout, path);
          GuardedCarried(trig, outcome, condition, body, layout, w, v);
        }
    }
  }

  lemma EmptyHasNoBit(condition: Condition)
    requires CannotFail(condition) && BitInRange(condition)
    ensures condition.bit.None?
  {
  }

  lemma SameClassical(layout: Layout, w: World, v: World)
    requires SameBranch(layout, w, v)
    ensures v.clbits == w.clbits
  {
  }

  /** What the semantic theorem uses of the chosen paths. */
  predicate SimplePaths(operations: seq<Operation>, paths: seq<seq<nat>>)
    requires |paths| == |operations|
  {
    forall k :: 0 <= k < |operations| && IsTwoQubitGate(BodyOf(operations[k])) ==> SimplePath(paths[k])
  }

  /**
   * Routing preserves meaning, for every circuit width, every record of measurement outcomes, and every starting
   * branch: the routed circuit is refused exactly when the source is, and otherwise ends in the same branch carried
   * through the final layout. Conditionals must lose nothing by being routed.
   */
  lemma {:induction false} RoutingPreserves(
    trig: Trig, outcome: nat -> bool, operations: seq<Operation>, layout: Layout, paths: seq<seq<nat>>,
    w: World, v: World)
    requires AllRoutable(operations, |layout|) && |paths| == |operations| && Injective(layout)
    requires SimplePaths(operations, paths) && AllTransparent(trig, operations, paths) && SameBranch(layout, w, v)
    ensures var routed := RouteAll(operations, layout, paths);
      EndAlike(routed.layout, Run(trig, outcome, operations, w), Run(trig, outcome, routed.operations, v))
    decreases |operations|
  {
    hide SameBranch, Injective, IsTransparent, Step, SimplePath, IsTwoQubitGate, Walk, RouteSimple;
    if |operations| > 0 {
      var op := operations[0];
      var first := RouteOperation(op, layout, paths[0]);
      var rest := RouteAll(operations[1..], first.layout, paths[1..]);
      assert IsTransparent(trig, op, paths[0]);
      OperationCarried(trig, outcome, op, layout, paths[0], w, v);
      RunConcat(trig, outcome, first.operations, rest.operations, v);
      var w1 := Step(trig, outcome, op, w);
      if w1.Some? {
        RouteFirstInjective(op, layout, paths[0]);
        TransparentSplit(trig, operations, paths);
        SimpleSplit(operations, paths);
        var v1 := Run(trig, outcome, first.operations, v).value;
        RoutingPreserves(trig, outcome, operations[1..], first.layout, paths[1..], w1.value, v1);
      }
    }
  }

  lemma RouteFirstInjective(operation: Operation, layout: Layout, path: seq<nat>)
    requires Routable(BodyOf(operation), |layout|) && Injective(layout)
    ensures Injective(RouteOperation(operation, layout, path).layout)
  {
    WalkInjective(layout, path);
  }

  lemma SimpleSplit(operations: seq<Operation>, paths: seq<seq<nat>>)
    requires |paths| == |operations| > 0 && SimplePaths(operations, paths)
    ensures SimplePaths(operations[1..], paths[1..])
  {
    forall k | 0 <= k < |operations| - 1 && IsTwoQubitGate(BodyOf(operations[1..][k]))
      ensures SimplePath(paths[1..][k])
    {
      assert SimplePath(paths[k + 1]);
    }
  }

  /** |0...0> on the device carries |0...0> of the circuit, whatever the layout. */
  lemma InitialCarried(layout: Layout)
    ensures SameBranch(layout, InitialWorld(), InitialWorld())
  {
    forall k: set<int>
      ensures ZeroState()(k) == if k <= Occupied(layout) then ZeroState()(Pull(layout, k)) else ZERO
    {
      if k <= Occupied(layout) && k != {} {
        var p :| p in k;
        var l: nat :| l < |layout| && layout[l] as int == p;
        assert l in Pull(layout, k);
      }
    }
  }

  // ---------------------------------------------------------------- one conditional, exactly

  /** The physical amplitudes that carry given logical ones. */
  function Carried(layout: Layout, logical: State): State {
    (k: set<int>) => if k <= Occupied(layout) then logical(Pull(layout, k)) else ZERO
  }

  lemma CarriedCarries(layout: Layout, w: World, v: World)
    requires v.state == Carried(layout, w.state) && v.clbits == w.clbits && v.draws == w.draws
    ensures SameBranch(layout, w, v)
  {
  }

  lemma PullBack(layout: Layout, j: set<int>)
    requires Injective(layout) && InsideWidth(j, |layout|)
    ensures RelocateSet(j, layout) <= Occupied(layout) && Pull(layout, RelocateSet(j, layout)) == j
  {
    var k := RelocateSet(j, layout);
    forall l: nat | l < |layout| ensures (layout[l] as int) in k <==> l in j {
      if (layout[l] as int) in k {
        var m: nat :| m < |layout| && m in j && layout[m] as int == layout[l] as int;
        assert m == l;
      }
    }
    forall x | x in j ensures x in Pull(layout, k) {
      var l: nat := x;
      assert (layout[l] as int) in k;
    }
  }

  /** A physical branch carries one logical branch only. */
  lemma CarriesOnlyOne(layout: Layout, a: World, b: World, v: World)
    requires Injective(layout) && SameBranch(layout, a, v) && SameBranch(layout, b, v)
    ensures !Differ(|layout|, a, b)
  {
    hide Pull, Occupied, RelocateSet, Injective;
    forall j: set<int> | InsideWidth(j, |layout|) ensures a.state(j) == b.state(j) {
      PullBack(layout, j);
      var k := RelocateSet(j, layout);
      assert v.state(k) == a.state(Pull(layout, k)) && v.state(k) == b.state(Pull(layout, k));
    }
  }

  /** Whatever it starts from and whatever is measured, the routed operation ends where the source does. */
  ghost predicate AlwaysCarried(trig: Trig, operation: Operation, layout: Layout, path: seq<nat>)
    requires Routable(BodyOf(operation), |layout|)
  {
    var first := RouteOperation(operation, layout, path);
    forall outcome: nat -> bool, w: World, v: World :: SameBranch(layout, w, v) ==>
      EndAlike(first.layout, Step(trig, outcome, operation, w), Run(trig, outcome, first.operations, v))
  }

  lemma CarriedAt(
    trig: Trig, operation: Operation, layout: Layout, path: seq<nat>, outcome: nat -> bool, w: World, v: World)
    requires Routable(BodyOf(operation), |layout|) && AlwaysCarried(trig, operation, layout, path)
      && SameBranch(layout, w, v)
    ensures var first := RouteOperation(operation, layout, path);
      EndAlike(first.layout, Step(trig, outcome, operation, w), Run(trig, outcome, first.operations, v))
  {
  }

  /** SWAPs under a condition that can fail: the layout moves although nothing else does. */
  lemma SwapsAreNotCarried(trig: Trig, condition: Condition, body: Simple, layout: Layout, path: seq<nat>)
    requires Routable(body, |layout|) && Injective(layout) && BitInRange(condition) && !CannotFail(condition)
    requires IsTwoQubitGate(body) && |path| > 2 && SimplePath(path)
    requires layout[body.gate.qubits[0]] == path[0] && layout[body.gate.qubits[1]] == path[|path| - 1]
    ensures !AlwaysCarried(trig, Conditional(condition, body), layout, path)
  {
    hide Holds, AlwaysCarried, SameBranch, StepSimple, Run, Walk;
    var operation := Conditional(condition, body);
    var clbits := FailingWitness(condition);
    var c := body.gate.qubits[0];
    var psi := BasisState({c as int});
    var w, v := World(psi, clbits, 0), World(Carried(layout, psi), clbits, 0);
    CarriedCarries(layout, w, v);
    if AlwaysCarried(trig, operation, layout, path) {
      var outcome := (j: nat) => false;
      CarriedAt(trig, operation, layout, path, outcome, w, v);
      SwapsAreRouted(condition, body, layout, path);
      GuardFails(trig, outcome, condition, RouteSimple(body, layout, path).operations, v);
      assert Step(trig, outcome, operation, w) == Some(w);
      WalkEnds(layout, path, c, body.gate.qubits[1]);
      StaysPut(layout, Walk(layout, path), c, w, v);
    }
  }

  /** All weight on one logical qubit: a layout that carries it has the qubit where the amplitudes were put. */
  lemma StaysPut(layout: Layout, moved: Layout, c: nat, w: World, v: World)
    requires Injective(layout) && |moved| == |layout| && c < |layout|
    requires w.state == BasisState({c as int}) && v.state == Carried(layout, w.state) && SameBranch(moved, w, v)
    ensures moved[c] == layout[c]
  {
    hide Occupied, Pull, Injective;
    var k := {layout[c] as int};
    SinglePull(layout, c);
    assert v.state(k) == ONE;
    assert Pull(moved, k) == {c as int};
    PullMember(moved, k, c);
  }

  lemma SinglePull(layout: Layout, c: nat)
    requires Injective(layout) && c < |layout|
    ensures var k := {layout[c] as int}; k <= Occupied(layout) && Pull(layout, k) == {c as int}
  {
    forall l: nat | l < |layout| && layout[l] == layout[c] ensures l == c {
    }
  }

  /** A dropped bit that matters, on a body that shows. */
  lemma HarmIsNotCarried(trig: Trig, condition: Condition, body: Simple, layout: Layout, path: seq<nat>)
    requires Routable(body, |layout|) && Injective(layout) && (IsTwoQubitGate(body) ==> |path| <= 2)
    requires BitInRange(condition) && DistinctQubits(condition.register)
    requires !DropIsHarmless(condition) && !IsInert(trig, body)
    ensures !AlwaysCarried(trig, Conditional(condition, body), layout, path)
  {
    NoBitNoHarm(condition);
    hide Holds, AlwaysCarried, SameBranch, StepSimple, Run, DropIsHarmless, IsInert, Injective, RelocateSimple,
         Routable, RouteOperation, EndAlike, Step, Carried;
    var operation := Conditional(condition, body);
    var clbits := HarmfulWitness(condition);
    var psi := BodyShows(trig, body, |layout|);
    var w, v := World(psi, clbits, 0), World(Carried(layout, psi), clbits, 0);
    CarriedCarries(layout, w, v);
    OneGuarded(condition, body, layout, path);
    if AlwaysCarried(trig, operation, layout, path) {
      var outcome := (j: nat) => false;
      CarriedAt(trig, operation, layout, path, outcome, w, v);
      GuardedStep(trig, outcome, condition, body, layout, v);
      HarmShows(trig, outcome, condition, body, layout, w, v);
    }
  }

  lemma HarmShows(
    trig: Trig, outcome: nat -> bool, condition: Condition, body: Simple, layout: Layout, w: World, v: World)
    requires Routable(body, |layout|) && Injective(layout) && SameBranch(layout, w, v)
    requires Holds(condition, w.clbits).Some? && Holds(WithoutBit(condition), w.clbits).Some?
    requires Holds(condition, w.clbits) != Holds(WithoutBit(condition), w.clbits)
    requires StepSimple(trig, outcome, body, w).Some? ==> Differ(|layout|, StepSimple(trig, outcome, body, w).value, w)
    ensures !EndAlike(layout, Step(trig, outcome, Conditional(condition, body), w),
                      if Holds(WithoutBit(condition), v.clbits) == Some(true)
                      then StepSimple(trig, outcome, RelocateSimple(body, layout), v) else Some(v))
  {
    hide SameBranch, StepSimple, Holds, Injective, RelocateSimple, Routable, Differ;
    SameClassical(layout, w, v);
    SimpleCarried(trig, outcome, body, layout, w, v);
    var next, moved := StepSimple(trig, outcome, body, w), StepSimple(trig, outcome, RelocateSimple(body, layout), v);
    if Holds(condition, w.clbits).value {
      assert Step(trig, outcome, Conditional(condition, body), w) == next;
      if next.Some? && SameBranch(layout, next.value, v) { CarriesOnlyOne(layout, next.value, w, v); }
    } else {
      assert Step(trig, outcome, Conditional(condition, body), w) == Some(w);
      assert Holds(WithoutBit(condition), v.clbits).value;
      assert Holds(WithoutBit(condition), v.clbits) == Some(true);
      if moved.Some? && SameBranch(layout, w, moved.value) { CarriesOnlyOne(layout, next.value, w, moved.value); }
    }
  }

  /**
   * A conditional is routed rightly, from every starting branch and for every outcome, if and only if no SWAP stands
   * under a condition that can fail, and dropping the tested bit changes nothing or its body does nothing.
   */
  lemma ConditionalCarriedExactlyWhen(trig: Trig, condition: Condition, body: Simple, layout: Layout, path: seq<nat>)
    requires Routable(body, |layout|) && Injective(layout) && BitInRange(condition)
      && DistinctQubits(condition.register)
    requires IsTwoQubitGate(body) ==>
      && |path| >= 2 && SimplePath(path)
      && layout[body.gate.qubits[0]] == path[0] && layout[body.gate.qubits[1]] == path[|path| - 1]
    ensures AlwaysCarried(trig, Conditional(condition, body), layout, path)
            <==> IsTransparent(trig, Conditional(condition, body), path)
  {
    hide AlwaysCarried, SameBranch, DropIsHarmless, IsInert, Injective, Routable, SimplePath, CannotFail, EndAlike,
         Run, Step, RouteOperation;
    var operation := Conditional(condition, body);
    if IsTransparent(trig, operation, path) {
      forall outcome: nat -> bool, w: World, v: World | SameBranch(layout, w, v)
        ensures var first := RouteOperation(operation, layout, path);
          EndAlike(first.layout, Step(trig, outcome, operation, w), Run(trig, outcome, first.operations, v))
      {
        OperationCarried(trig, outcome, operation, layout, path, w, v);
      }
      CarriedEverywhere(trig, operation, layout, path);
    } else if IsTwoQubitGate(body) && |path| > 2 && !CannotFail(condition) {
      SwapsAreNotCarried(trig, condition, body, layout, path);
    } else {
      if CannotFail(condition) { FailsOrHarmless(condition); }
      HarmIsNotCarried(trig, condition, body, layout, path);
    }
  }

  lemma FailsOrHarmless(condition: Condition)
    requires CannotFail(condition) && BitInRange(condition)
    ensures DropIsHarmless(condition)
  {
  }

  lemma CarriedEverywhere(trig: Trig, operation: Operation, layout: Layout, path: seq<nat>)
    requires Routable(BodyOf(operation), |layout|)
    requires forall outcome: nat -> bool, w: World, v: World :: SameBranch(layout, w, v) ==>
      EndAlike(RouteOperation(operation, layout, path).layout, Step(trig, outcome, operation, w),
               Run(trig, outcome, RouteOperation(operation, layout, path).operations, v))
    ensures AlwaysCarried(trig, operation, layout, path)
  {
  }

  // ---------------------------------------------------------------- where conditionals break it

  /** A line 0-1-2; a conditional gate between the far ends, on a register that is never written. */
  function FarConditional(): seq<Operation> {
    [Plain(Apply(Gate(X, [], [0]))), Conditional(Condition([0], None, 1), Apply(Gate(Cx, [], [0, 2])))]
  }

  /**
   * The SWAPs of a conditional body are guarded with it while the layout moves regardless: with the condition false
   * the routed circuit leaves qubit 0 in place, yet its recorded layout says logical qubit 0 has moved.
   */
  lemma ConditionalSwapsBreakRouting(trig: Trig, outcome: nat -> bool)
    ensures var paths := [[], [0, 1, 2]];
      var routed := RouteAll(FarConditional(), [0, 1, 2], paths);
      && AllRoutable(FarConditional(), 3) && !AllTransparent(trig, FarConditional(), paths)
      && routed.layout == [1, 0, 2]
      && var w, v := Run(trig, outcome, FarConditional(), InitialWorld()),
                     Run(trig, outcome, routed.operations, InitialWorld());
         w.Some? && v.Some? && !SameBranch(routed.layout, w.value, v.value)
  {
    hide After, RouteAll, ZeroState;
    var ops, paths := FarConditional(), [[], [0, 1, 2]];
    var flip, guard := ops[0], ops[1];
    assert !IsTransparent(trig, guard, paths[1]);
    var routed := RouteAll(ops, [0, 1, 2], paths);
    var swap := Conditional(Condition([0], None, 1), Apply(Gate(Swap, [], [0, 1])));
    var last := Conditional(Condition([0], None, 1), Apply(Gate(Cx, [], [1, 2])));
    FarRouted();
    var w0 := InitialWorld();
    var w1 := w0.(state := After(Matrix(FLIP, {}, 0), ZeroState()));
    assert Step(trig, outcome, flip, w0) == Some(w1);
    assert Holds(Condition([0], None, 1), w1.clbits) == Some(false) by {
      assert RegisterValue([0][1..], w1.clbits) == 0;
    }
    RunTwo(trig, outcome, flip, guard, w0, w1);
    assert [flip, swap, last] == [flip, swap] + [last];
    RunTwo(trig, outcome, flip, swap, w0, w1);
    RunConcat(trig, outcome, [flip, swap], [last], w0);
    RunOne(trig, outcome, last, w1);
    // both end in |...1>: amplitude one at {0}, but the layout reads physical 0 as logical 1
    FlippedZero();
    var k := {0};
    assert Pull([1, 0, 2], k) == {1} && k <= Occupied([1, 0, 2]) by { SwappedRegister(); }
  }

  /** The far conditional on its own: the SWAP is guarded, the layout moves. */
  lemma FarSecond()
    ensures RouteOperation(FarConditional()[1], [0, 1, 2], [0, 1, 2])
         == Routed([Conditional(Condition([0], None, 1), Apply(Gate(Swap, [], [0, 1]))),
                    Conditional(Condition([0], None, 1), Apply(Gate(Cx, [], [1, 2])))], [1, 0, 2])
  {
    var id: Layout := [0, 1, 2];
    var path: seq<nat> := [0, 1, 2];
    assert SwapLayout(id, 0, 1) == [1, 0, 2];
    assert path[1..] == [1, 2];
    assert Walk(id, path) == [1, 0, 2];
    assert SwapsAlong(path) == [SwapOn(0, 1)];
    assert Relocate([0, 2], [1, 0, 2]) == [1, 2];
    var body := RouteSimple(BodyOf(FarConditional()[1]), id, path);
    assert body.operations == [SwapOn(0, 1), Plain(Apply(Gate(Cx, [], [1, 2])))];
  }

  lemma RouteTwo(first: Operation, second: Operation, layout: Layout, p: seq<nat>, q: seq<nat>)
    requires Routable(BodyOf(first), |layout|) && Routable(BodyOf(second), |layout|)
    ensures AllRoutable([first, second], |layout|)
    ensures var a := RouteOperation(first, layout, p);
      var b := RouteOperation(second, a.layout, q);
      RouteAll([first, second], layout, [p, q]) == Routed(a.operations + b.operations, b.layout)
  {
    hide RouteOperation, Routable;
    var a := RouteOperation(first, layout, p);
    var b := RouteOperation(second, a.layout, q);
    var ps: seq<seq<nat>> := [q];
    assert [first, second][1..] == [second] && [p, q][1..] == ps;
    assert RouteAll([second], a.layout, ps) == Routed(b.operations, b.layout) by {
      assert [second][1..] == [] && ps[1..] == [];
      assert b.operations + [] == b.operations;
    }
  }

  lemma FarFirst()
    ensures RouteOperation(FarConditional()[0], [0, 1, 2], []) == Routed([Plain(Apply(Gate(X, [], [0])))], [0, 1, 2])
  {
    assert Relocate([0], [0, 1, 2]) == [0];
  }

  lemma FarRouted()
    ensures AllRoutable(FarConditional(), 3)
    ensures RouteAll(FarConditional(), [0, 1, 2], [[], [0, 1, 2]])
         == Routed([Plain(Apply(Gate(X, [], [0]))),
                    Conditional(Condition([0], None, 1), Apply(Gate(Swap, [], [0, 1]))),
                    Conditional(Condition([0], None, 1), Apply(Gate(Cx, [], [1, 2])))], [1, 0, 2])
  {
    hide RouteAll, RouteOperation;
    var ops := FarConditional();
    FarFirst();
    FarSecond();
    RouteTwo(ops[0], ops[1], [0, 1, 2], [], [0, 1, 2]);
  }

  lemma RunTwo(trig: Trig, outcome: nat -> bool, first: Operation, second: Operation, w: World, mid: World)
    requires Step(trig, outcome, first, w) == Some(mid)
    ensures Run(trig, outcome, [first, second], w) == Step(trig, outcome, second, mid)
  {
    hide Step;
    assert [first, second][1..] == [second];
    RunOne(trig, outcome, second, mid);
  }

  lemma FlippedZero()
    ensures After(Matrix(FLIP, {}, 0), ZeroState())({0}) == ONE
    ensures After(Matrix(FLIP, {}, 0), ZeroState())({1}) == ZERO
  {
    hide After;
    AfterFlip(0, ZeroState(), {0});
    AfterFlip(0, ZeroState(), {1});
    assert {0} - {0} == {};
    assert 1 in {1} + {0};
  }

  lemma SwappedRegister()
    ensures Pull([1, 0, 2], {0}) == {1} && {0} <= Occupied([1, 0, 2])
  {
    var layout: Layout := [1, 0, 2];
    assert layout[1] == 0;
  }

  /**
   * A routed circuit whose conditional fires although the source's does not, or the other way round: testing one bit
   * of two becomes testing both, and the gate is not a nothing.
   */
  lemma DroppedBitBreaksRouting(trig: Trig, condition: Condition, body: Simple, layout: Layout)
    requires condition.register == [0, 1] && condition.bit == Some(1) && condition.equals == 1
    requires layout == [0] && body == Apply(Gate(X, [], [0]))
    ensures Routable(body, |layout|) && !AlwaysCarried(trig, Conditional(condition, body), layout, [])
  {
    hide AlwaysCarried;
    TwoBits();
    FlipIsNoIdentity(trig);
    HarmIsNotCarried(trig, condition, body, layout, []);
  }

  lemma TwoBits()
    ensures Bits.Pow2(2) == 4
  {
    assert Bits.Pow2(1) == 2;
  }

  lemma FlipIsNoIdentity(trig: Trig)
    ensures !IsInert(trig, Apply(Gate(X, [], [0])))
  {
  }

  // ---------------------------------------------------------------- layouts with repeated entries

  function FlipOf(l: nat): Operation {
    Plain(Apply(Gate(X, [], [l])))
  }

  lemma FlipStep(trig: Trig, outcome: nat -> bool, l: nat, w: World)
    ensures Step(trig, outcome, FlipOf(l), w) == Some(w.(state := After(Matrix(FLIP, {}, l), w.state)))
  {
    hide After;
  }

  lemma FlipRouted(layout: Layout, l: nat)
    requires l < |layout|
    ensures Routable(BodyOf(FlipOf(l)), |layout|)
    ensures RouteOperation(FlipOf(l), layout, []) == Routed([FlipOf(layout[l])], layout)
  {
    assert Relocate([l], layout) == [layout[l]];
  }

  /** Two logical qubits on one physical qubit: a flip of the first shows on both. */
  lemma SharedQubitIsNotCarried(trig: Trig, layout: Layout, i: nat, j: nat)
    requires i < j < |layout| && layout[i] == layout[j]
    ensures Routable(BodyOf(FlipOf(i)), |layout|) && !AlwaysCarried(trig, FlipOf(i), layout, [])
  {
    FlipRouted(layout, i);
    if AlwaysCarried(trig, FlipOf(i), layout, []) {
      var w, p, outcome := InitialWorld(), layout[i], (d: nat) => false;
      InitialCarried(layout);
      CarriedAt(trig, FlipOf(i), layout, [], outcome, w, w);
      hide AlwaysCarried, Step, RouteOperation;
      FlipStep(trig, outcome, i, w);
      FlipStep(trig, outcome, p, w);
      RunOne(trig, outcome, FlipOf(p), w);
      hide After;
      var k: set<int> := {p};
      var pulled := Pull(layout, k);
      PullMember(layout, k, i);
      PullMember(layout, k, j);
      assert j in pulled - {i} && k - {p as int} == {} && k <= Occupied(layout);
      AfterFlip(i, w.state, pulled);
      AfterFlip(p, w.state, k);
    }
  }

  /** A layout carries every flip of one logical qubit if and only if no two logical qubits share a physical one. */
  lemma LayoutCarriesExactlyWhen(trig: Trig, layout: Layout)
    ensures (forall l: nat :: l < |layout| ==>
               Routable(BodyOf(FlipOf(l)), |layout|) && AlwaysCarried(trig, FlipOf(l), layout, []))
                 <==> Injective(layout)
  {
    hide AlwaysCarried, Routable, SameBranch, Step, Run, RouteOperation, EndAlike;
    if Injective(layout) {
      forall l: nat | l < |layout|
        ensures Routable(BodyOf(FlipOf(l)), |layout|) && AlwaysCarried(trig, FlipOf(l), layout, [])
      {
        FlipRouted(layout, l);
        forall outcome: nat -> bool, w: World, v: World | SameBranch(layout, w, v)
          ensures var first := RouteOperation(FlipOf(l), layout, []);
            EndAlike(first.layout, Step(trig, outcome, FlipOf(l), w), Run(trig, outcome, first.operations, v))
        {
          OperationCarried(trig, outcome, FlipOf(l), layout, [], w, v);
        }
        CarriedEverywhere(trig, FlipOf(l), layout, []);
      }
    } else {
      var i: nat, j: nat :| i < j < |layout| && layout[i] == layout[j];
      SharedQubitIsNotCarried(trig, layout, i, j);
    }
  }
}
