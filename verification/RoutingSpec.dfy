/**
 * What SWAP routing emits, as a function of the chosen paths (src/engine/transpile.ts:138-277), and the structural
 * theorems: legality, cost, and that undoing the inserted SWAPs gives back the source circuit.
 */
module RoutingSpec {
  import opened Options
  import opened Circuits
  import opened CouplingGraph

  /** Logical qubit l sits on physical qubit layout[l]. */
  type Layout = seq<nat>

  predicate Injective(layout: Layout) {
    forall i, j :: 0 <= i < j < |layout| ==> layout[i] != layout[j]
  }

  function SwapLayout(layout: Layout, a: nat, b: nat): (swapped: Layout)
    ensures |swapped| == |layout|
  {
    seq(|layout|, l requires 0 <= l < |layout| =>
      if layout[l] == a then b else if layout[l] == b then a else layout[l])
  }

  /** The layout after the SWAPs along a path that stop one short of its end. */
  function Walk(layout: Layout, path: seq<nat>): (walked: Layout)
    ensures |walked| == |layout|
    decreases |path|
  {
    if |path| <= 2 then layout else Walk(SwapLayout(layout, path[0], path[1]), path[1..])
  }

  function SwapOn(a: nat, b: nat): Operation {
    Plain(Apply(Gate(Swap, [], [a, b])))
  }

  function SwapsAlong(path: seq<nat>): (swaps: seq<Operation>)
    ensures |swaps| == if |path| <= 2 then 0 else |path| - 2
    decreases |path|
  {
    if |path| <= 2 then [] else [SwapOn(path[0], path[1])] + SwapsAlong(path[1..])
  }

  datatype Routed = Routed(operations: seq<Operation>, layout: Layout)

  /** A gate on more qubits than routing handles. */
  predicate TooWide(simple: Simple) {
    simple.Apply? && |simple.gate.qubits| > 2
  }

  predicate IsTwoQubitGate(simple: Simple) {
    simple.Apply? && |simple.gate.qubits| == 2
  }

  /** Qubits in range and distinct within a gate, and no gate wider than two qubits. */
  predicate Routable(simple: Simple, width: nat) {
    match simple
    case Apply(gate) =>
      |gate.qubits| <= 2 && DistinctQubits(gate.qubits) && forall i :: 0 <= i < |gate.qubits| ==> gate.qubits[i] < width
    case Measure(qubit, _) => qubit < width
    case Reset(qubit) => qubit < width
    case Barrier(qubits) => forall i :: 0 <= i < |qubits| ==> qubits[i] < width
  }

  predicate AllRoutable(operations: seq<Operation>, width: nat) {
    forall k :: 0 <= k < |operations| ==> Routable(BodyOf(operations[k]), width)
  }

  function Relocate(qubits: seq<nat>, layout: Layout): (moved: seq<nat>)
    requires forall i :: 0 <= i < |qubits| ==> qubits[i] < |layout|
    ensures |moved| == |qubits| && forall i :: 0 <= i < |qubits| ==> moved[i] == layout[qubits[i]]
  {
    seq(|qubits|, i requires 0 <= i < |qubits| => layout[qubits[i]])
  }

  function RelocateSimple(simple: Simple, layout: Layout): Simple
    requires Routable(simple, |layout|)
  {
    match simple
    case Apply(gate) => Apply(gate.(qubits := Relocate(gate.qubits, layout)))
    case Measure(qubit, clbit) => Measure(layout[qubit], clbit)
    case Reset(qubit) => Reset(layout[qubit])
    case Barrier(qubits) => Barrier(Relocate(qubits, layout))
  }

  function RouteSimple(simple: Simple, layout: Layout, path: seq<nat>): (routed: Routed)
    requires Routable(simple, |layout|)
    ensures |routed.layout| == |layout|
  {
    var layout' := if IsTwoQubitGate(simple) then Walk(layout, path) else layout;
    var swaps := if IsTwoQubitGate(simple) then SwapsAlong(path) else [];
    Routed(swaps + [Plain(RelocateSimple(simple, layout'))], layout')
  }

  /** Wraps everything a conditional body emitted; the tested bit, if any, is not carried over. */
  function Guard(condition: Condition, operations: seq<Operation>): (guarded: seq<Operation>)
    ensures |guarded| == |operations|
  {
    seq(|operations|, k requires 0 <= k < |operations| =>
      Conditional(Condition(condition.register, None, condition.equals), BodyOf(operations[k])))
  }

  function RouteOperation(operation: Operation, layout: Layout, path: seq<nat>): (routed: Routed)
    requires Routable(BodyOf(operation), |layout|)
    ensures |routed.layout| == |layout|
  {
    var routed := RouteSimple(BodyOf(operation), layout, path);
    match operation
    case Plain(_) => routed
    case Conditional(condition, _) => Routed(Guard(condition, routed.operations), routed.layout)
  }

  function RouteAll(operations: seq<Operation>, layout: Layout, paths: seq<seq<nat>>): (routed: Routed)
    requires AllRoutable(operations, |layout|) && |paths| == |operations|
    ensures |routed.layout| == |layout|
    decreases |operations|
  {
    if |operations| == 0 then Routed([], layout)
    else
      var first := RouteOperation(operations[0], layout, paths[0]);
      var rest := RouteAll(operations[1..], first.layout, paths[1..]);
      Routed(first.operations + rest.operations, rest.layout)
  }

  /** The path chosen for one operation: shortest between the operands' current places, or none needed. */
  ghost predicate PathFits(adjacency: Adjacency, simple: Simple, layout: Layout, path: seq<nat>)
    requires Routable(simple, |layout|)
  {
    if IsTwoQubitGate(simple)
    then IsShortest(adjacency, path, layout[simple.gate.qubits[0]], layout[simple.gate.qubits[1]])
    else path == []
  }

  ghost predicate PathsFit(adjacency: Adjacency, operations: seq<Operation>, layout: Layout, paths: seq<seq<nat>>)
    requires AllRoutable(operations, |layout|) && |paths| == |operations|
    decreases |operations|
  {
    |operations| > 0 ==>
      && PathFits(adjacency, BodyOf(operations[0]), layout, paths[0])
      && PathsFit(adjacency, operations[1..], RouteOperation(operations[0], layout, paths[0]).layout, paths[1..])
  }

  // ---------------------------------------------------------------- layouts along a walk

  lemma SwapInjective(layout: Layout, a: nat, b: nat)
    requires Injective(layout)
    ensures Injective(SwapLayout(layout, a, b))
  {
  }

  lemma {:induction false} WalkInjective(layout: Layout, path: seq<nat>)
    requires Injective(layout)
    ensures Injective(Walk(layout, path))
    decreases |path|
  {
    if |path| > 2 {
      SwapInjective(layout, path[0], path[1]);
      WalkInjective(SwapLayout(layout, path[0], path[1]), path[1..]);
    }
  }

  predicate SimplePath(path: seq<nat>) {
    forall i, j :: 0 <= i < j < |path| ==> path[i] != path[j]
  }

  /** Walking the control leaves it on the last but one vertex, and the target where it was. */
  lemma {:induction false} WalkEnds(layout: Layout, path: seq<nat>, control: nat, target: nat)
    requires control < |layout| && target < |layout| && |path| >= 2 && SimplePath(path)
    requires layout[control] == path[0] && layout[target] == path[|path| - 1]
    ensures Walk(layout, path)[control] == path[|path| - 2] && Walk(layout, path)[target] == path[|path| - 1]
    decreases |path|
  {
    if |path| > 2 {
      WalkEnds(SwapLayout(layout, path[0], path[1]), path[1..], control, target);
    }
  }

  lemma {:induction false} RouteInjective(operations: seq<Operation>, layout: Layout, paths: seq<seq<nat>>)
    requires AllRoutable(operations, |layout|) && |paths| == |operations| && Injective(layout)
    ensures Injective(RouteAll(operations, layout, paths).layout)
    decreases |operations|
  {
    hide Injective;
    if |operations| > 0 {
      WalkInjective(layout, paths[0]);
      RouteInjective(operations[1..], RouteOperation(operations[0], layout, paths[0]).layout, paths[1..]);
    }
  }

  // ---------------------------------------------------------------- components

  ghost predicate Symmetric(adjacency: Adjacency) {
    forall a: nat, b: nat :: Edge(adjacency, a, b) ==> Edge(adjacency, b, a)
  }

  lemma ConnectedTrans(adjacency: Adjacency, a: nat, b: nat, c: nat)
    requires Connected(adjacency, a, b) && Connected(adjacency, b, c)
    ensures Connected(adjacency, a, c)
  {
    var p: seq<nat> :| IsWalk(adjacency, p, a, b);
    var q: seq<nat> :| IsWalk(adjacency, q, b, c);
    var walk := p + q[1..];
    forall i | 0 <= i < |walk| - 1 ensures Edge(adjacency, walk[i], walk[i + 1]) {
      if i + 1 < |p| {
        assert Edge(adjacency, p[i], p[i + 1]);
      } else {
        assert walk[i] == q[i + 1 - |p|] && walk[i + 1] == q[i + 2 - |p|];
        assert Edge(adjacency, q[i + 1 - |p|], q[i + 1 - |p| + 1]);
      }
    }
    assert IsWalk(adjacency, walk, a, c);
  }

  lemma {:induction false} ConnectedSym(adjacency: Adjacency, walk: seq<nat>, a: nat, b: nat)
    requires Symmetric(adjacency) && IsWalk(adjacency, walk, a, b)
    ensures Connected(adjacency, b, a)
    decreases |walk|
  {
    if |walk| == 1 {
      assert IsWalk(adjacency, walk, b, a);
    } else {
      var tail := walk[1..];
      assert Edge(adjacency, walk[0], walk[0 + 1]);
      forall i | 0 <= i < |tail| - 1 ensures Edge(adjacency, tail[i], tail[i + 1]) {
        assert Edge(adjacency, walk[i + 1], walk[i + 1 + 1]);
      }
      ConnectedSym(adjacency, tail, walk[1], b);
      EdgeConnects(adjacency, walk[1], a);
      ConnectedTrans(adjacency, b, walk[1], a);
    }
  }

  lemma EdgeConnects(adjacency: Adjacency, a: nat, b: nat)
    requires Edge(adjacency, a, b)
    ensures Connected(adjacency, a, b)
  {
    assert IsWalk(adjacency, [a, b], a, b);
  }

  /** Every logical qubit is where a walk from its old place leads. */
  ghost predicate StaysConnected(adjacency: Adjacency, before: Layout, after: Layout)
    requires |before| == |after|
  {
    forall l :: 0 <= l < |before| ==> Connected(adjacency, before[l], after[l])
  }

  lemma StaysTrans(adjacency: Adjacency, first: Layout, second: Layout, third: Layout)
    requires |first| == |second| == |third|
    requires StaysConnected(adjacency, first, second) && StaysConnected(adjacency, second, third)
    ensures StaysConnected(adjacency, first, third)
  {
    hide Connected;
    forall l | 0 <= l < |first| ensures Connected(adjacency, first[l], third[l]) {
      ConnectedTrans(adjacency, first[l], second[l], third[l]);
    }
  }

  lemma NothingMoved(adjacency: Adjacency, layout: Layout)
    requires forall l :: 0 <= l < |layout| ==> layout[l] in adjacency
    ensures StaysConnected(adjacency, layout, layout)
  {
    forall l | 0 <= l < |layout| ensures Connected(adjacency, layout[l], layout[l]) {
      assert IsWalk(adjacency, [layout[l]], layout[l], layout[l]);
    }
  }

  /** SWAPs along a walk leave every logical qubit in its component. */
  lemma {:induction false} WalkStaysConnected(adjacency: Adjacency, layout: Layout, path: seq<nat>, from: nat, to: nat)
    requires Symmetric(adjacency) && IsWalk(adjacency, path, from, to)
    requires forall l :: 0 <= l < |layout| ==> layout[l] in adjacency
    ensures StaysConnected(adjacency, layout, Walk(layout, path))
    decreases |path|
  {
    if |path| > 2 {
      var a, b, tail := path[0], path[1], path[1..];
      assert Edge(adjacency, path[0], path[0 + 1]);
      forall i | 0 <= i < |tail| - 1 ensures Edge(adjacency, tail[i], tail[i + 1]) {
        assert Edge(adjacency, path[i + 1], path[i + 1 + 1]);
      }
      var swapped := SwapLayout(layout, a, b);
      NothingMoved(adjacency, layout);
      EdgeConnects(adjacency, a, b);
      EdgeConnects(adjacency, b, a);
      hide Connected;
      assert StaysConnected(adjacency, layout, swapped);
      WalkStaysConnected(adjacency, swapped, tail, path[1], to);
      StaysTrans(adjacency, layout, swapped, Walk(swapped, tail));
    } else {
      NothingMoved(adjacency, layout);
    }
  }

  // ---------------------------------------------------------------- legality

  /** A two-qubit gate, conditional or not, lies on a coupling edge. */
  predicate Legal(adjacency: Adjacency, operation: Operation) {
    IsTwoQubitGate(BodyOf(operation)) ==>
      Edge(adjacency, BodyOf(operation).gate.qubits[0], BodyOf(operation).gate.qubits[1])
  }

  predicate AllLegal(adjacency: Adjacency, operations: seq<Operation>) {
    forall k :: 0 <= k < |operations| ==> Legal(adjacency, operations[k])
  }

  lemma {:induction false} SwapsLegal(adjacency: Adjacency, path: seq<nat>, from: nat, to: nat)
    requires IsWalk(adjacency, path, from, to)
    ensures AllLegal(adjacency, SwapsAlong(path))
    decreases |path|
  {
    if |path| > 2 {
      var tail := path[1..];
      forall i | 0 <= i < |tail| - 1 ensures Edge(adjacency, tail[i], tail[i + 1]) {
        assert Edge(adjacency, path[i + 1], path[i + 1 + 1]);
      }
      SwapsLegal(adjacency, tail, path[1], to);
      assert Edge(adjacency, path[0], path[0 + 1]);
    }
  }

  lemma RouteSimpleLegal(adjacency: Adjacency, simple: Simple, layout: Layout, path: seq<nat>)
    requires Routable(simple, |layout|) && Injective(layout) && PathFits(adjacency, simple, layout, path)
    ensures AllLegal(adjacency, RouteSimple(simple, layout, path).operations)
  {
    if IsTwoQubitGate(simple) {
      var c, t := simple.gate.qubits[0], simple.gate.qubits[1];
      assert layout[c] != layout[t];
      SwapsLegal(adjacency, path, layout[c], layout[t]);
      WalkEnds(layout, path, c, t);
      assert Edge(adjacency, path[|path| - 2], path[|path| - 2 + 1]);
    }
  }

  lemma GuardLegal(adjacency: Adjacency, condition: Condition, operations: seq<Operation>)
    requires AllLegal(adjacency, operations)
    ensures AllLegal(adjacency, Guard(condition, operations))
  {
    var guarded := Guard(condition, operations);
    forall k | 0 <= k < |guarded| ensures Legal(adjacency, guarded[k]) {
      assert Legal(adjacency, operations[k]);
    }
  }

  /** Every two-qubit operation that routing emits acts on a coupled pair, in every reachable state. */
  lemma {:induction false} RoutingIsLegal(
    adjacency: Adjacency, operations: seq<Operation>, layout: Layout, paths: seq<seq<nat>>)
    requires AllRoutable(operations, |layout|) && |paths| == |operations| && Injective(layout)
    requires PathsFit(adjacency, operations, layout, paths)
    ensures AllLegal(adjacency, RouteAll(operations, layout, paths).operations)
    decreases |operations|
  {
    hide Legal, Walk, SwapsAlong, IsShortest;
    if |operations| > 0 {
      var first := RouteOperation(operations[0], layout, paths[0]);
      RouteSimpleLegal(adjacency, BodyOf(operations[0]), layout, paths[0]);
      match operations[0] {
        case Plain(_) =>
        case Conditional(condition, body) =>
          GuardLegal(adjacency, condition, RouteSimple(body, layout, paths[0]).operations);
      }
      WalkInjective(layout, paths[0]);
      RoutingIsLegal(adjacency, operations[1..], first.layout, paths[1..]);
    }
  }

  // ---------------------------------------------------------------- cost

  /** One SWAP fewer than the distance, per routed gate. */
  function SwapCost(paths: seq<seq<nat>>): nat {
    if |paths| == 0 then 0 else SwapCost(paths[..|paths| - 1]) + |SwapsAlong(paths[|paths| - 1])|
  }

  /** Number of edges on a shortest walk. */
  ghost predicate IsDistance(adjacency: Adjacency, from: nat, to: nat, distance: nat) {
    && (exists walk :: IsWalk(adjacency, walk, from, to) && |walk| == distance + 1)
    && forall walk :: IsWalk(adjacency, walk, from, to) ==> |walk| >= distance + 1
  }

  /** A routed gate costs exactly (distance - 1) SWAPs: no other walk would need fewer. */
  lemma GateCost(adjacency: Adjacency, simple: Simple, layout: Layout, path: seq<nat>, distance: nat)
    requires Routable(simple, |layout|) && Injective(layout) && IsTwoQubitGate(simple)
    requires PathFits(adjacency, simple, layout, path)
    requires IsDistance(adjacency, layout[simple.gate.qubits[0]], layout[simple.gate.qubits[1]], distance)
    ensures distance >= 1 && |RouteSimple(simple, layout, path).operations| == (distance - 1) + 1
  {
    var c, t := simple.gate.qubits[0], simple.gate.qubits[1];
    assert layout[c] != layout[t];
    var walk :| IsWalk(adjacency, walk, layout[c], layout[t]) && |walk| == distance + 1;
    assert |path| <= |walk| && |path| >= distance + 1;
  }

  /** For each two-qubit gate the distance its operands have in the layout reached by then, and 1 for the rest. */
  ghost predicate DistancesFit(
    adjacency: Adjacency, operations: seq<Operation>, layout: Layout, paths: seq<seq<nat>>, distances: seq<nat>)
    requires AllRoutable(operations, |layout|) && |distances| == |paths| == |operations|
    decreases |operations|
  {
    |operations| > 0 ==>
      var simple := BodyOf(operations[0]);
      && (if IsTwoQubitGate(simple)
          then IsDistance(adjacency, layout[simple.gate.qubits[0]], layout[simple.gate.qubits[1]], distances[0])
          else distances[0] == 1)
      && DistancesFit(adjacency, operations[1..], RouteOperation(operations[0], layout, paths[0]).layout, paths[1..],
                      distances[1..])
  }

  function TotalExcess(distances: seq<nat>): int {
    if |distances| == 0 then 0 else distances[0] - 1 + TotalExcess(distances[1..])
  }

  lemma {:induction false} SwapCostFront(paths: seq<seq<nat>>)
    requires |paths| > 0
    ensures SwapCost(paths) == |SwapsAlong(paths[0])| + SwapCost(paths[1..])
    decreases |paths|
  {
    hide SwapsAlong;
    if |paths| > 1 {
      var init := paths[..|paths| - 1];
      SwapCostFront(init);
      assert init[1..] == paths[1..][..|paths| - 2];
    }
  }

  lemma NoSwaps()
    ensures SwapCost([]) == 0
  {
  }

  /** The SWAPs of a whole routing number exactly the sum of (distance - 1), and are all it adds. */
  lemma {:induction false} RoutingCost(
    adjacency: Adjacency, operations: seq<Operation>, layout: Layout, paths: seq<seq<nat>>, distances: seq<nat>)
    requires AllRoutable(operations, |layout|) && |distances| == |paths| == |operations|
    requires Injective(layout) && PathsFit(adjacency, operations, layout, paths)
    requires DistancesFit(adjacency, operations, layout, paths, distances)
    ensures SwapCost(paths) == TotalExcess(distances)
    ensures |RouteAll(operations, layout, paths).operations| == |operations| + TotalExcess(distances)
    decreases |operations|
  {
    hide IsDistance, SwapsAlong, IsShortest, Walk, SwapCost;
    if |operations| == 0 {
      NoSwaps();
      assert paths == [];
    } else {
      var simple := BodyOf(operations[0]);
      var first := RouteOperation(operations[0], layout, paths[0]);
      if IsTwoQubitGate(simple) {
        GateCost(adjacency, simple, layout, paths[0], distances[0]);
        WalkInjective(layout, paths[0]);
      }
      SwapCostFront(paths);
      RoutingCost(adjacency, operations[1..], first.layout, paths[1..], distances[1..]);
    }
  }

  // ---------------------------------------------------------------- erasure

  /** Marks the SWAPs routing inserted, in emission order. */
  function Marks(operations: seq<Operation>, paths: seq<seq<nat>>): (marks: seq<bool>)
    requires |paths| == |operations|
    decreases |operations|
  {
    if |operations| == 0 then []
    else
      var inserted := if IsTwoQubitGate(BodyOf(operations[0])) then |SwapsAlong(paths[0])| else 0;
      seq(inserted, _ => true) + [false] + Marks(operations[1..], paths[1..])
  }

  function PlaceOf(layout: Layout, physical: nat): (l: nat)
    ensures l <= |layout|
    ensures l < |layout| ==> layout[l] == physical
    ensures l == |layout| ==> physical !in layout
  {
    if |layout| == 0 then 0
    else if layout[0] == physical then 0
    else
      assert layout == [layout[0]] + layout[1..];
      1 + PlaceOf(layout[1..], physical)
  }

  function Return(qubits: seq<nat>, layout: Layout): (back: seq<nat>)
    ensures |back| == |qubits| && forall i :: 0 <= i < |qubits| ==> back[i] == PlaceOf(layout, qubits[i])
  {
    seq(|qubits|, i requires 0 <= i < |qubits| => PlaceOf(layout, qubits[i]))
  }

  function ReturnSimple(simple: Simple, layout: Layout): Simple {
    match simple
    case Apply(gate) => Apply(gate.(qubits := Return(gate.qubits, layout)))
    case Measure(qubit, clbit) => Measure(PlaceOf(layout, qubit), clbit)
    case Reset(qubit) => Reset(PlaceOf(layout, qubit))
    case Barrier(qubits) => Barrier(Return(qubits, layout))
  }

  function ReturnOperation(operation: Operation, layout: Layout): Operation {
    match operation
    case Plain(simple) => Plain(ReturnSimple(simple, layout))
    case Conditional(condition, body) => Conditional(condition, ReturnSimple(body, layout))
  }

  /** Replays routed operations, dropping each marked unconditional SWAP while following it with the layout. */
  function Undo(operations: seq<Operation>, marks: seq<bool>, layout: Layout): Option<Routed>
    requires |marks| == |operations|
    decreases |operations|
  {
    if |operations| == 0 then Some(Routed([], layout))
    else if marks[0] then
      var op := operations[0];
      if op.Plain? && op.simple.Apply? && op.simple.gate.name == Swap && |op.simple.gate.qubits| == 2
      then Undo(operations[1..], marks[1..], SwapLayout(layout, op.simple.gate.qubits[0], op.simple.gate.qubits[1]))
      else None
    else
      var rest := Undo(operations[1..], marks[1..], layout);
      if rest.None? then None
      else Some(Routed([ReturnOperation(operations[0], layout)] + rest.value.operations, rest.value.layout))
  }

  /** A conditional that tests a whole register and whose body needs no SWAP. */
  predicate Direct(operation: Operation, path: seq<nat>) {
    operation.Conditional? ==>
      operation.condition.bit.None? && (IsTwoQubitGate(operation.body) ==> |path| <= 2)
  }

  predicate AllDirect(operations: seq<Operation>, paths: seq<seq<nat>>)
    requires |paths| == |operations|
  {
    forall k :: 0 <= k < |operations| ==> Direct(operations[k], paths[k])
  }

  lemma PlaceOfLayout(layout: Layout, l: nat)
    requires Injective(layout) && l < |layout|
    ensures PlaceOf(layout, layout[l]) == l
  {
    var p := PlaceOf(layout, layout[l]);
    assert layout[l] in layout;
  }

  lemma ReturnRelocated(simple: Simple, layout: Layout)
    requires Injective(layout) && Routable(simple, |layout|)
    ensures ReturnSimple(RelocateSimple(simple, layout), layout) == simple
  {
    forall l | 0 <= l < |layout| ensures PlaceOf(layout, layout[l]) == l {
      PlaceOfLayout(layout, l);
    }
    match simple {
      case Apply(gate) => assert Return(Relocate(gate.qubits, layout), layout) == gate.qubits;
      case Barrier(qubits) => assert Return(Relocate(qubits, layout), layout) == qubits;
      case _ =>
    }
  }

  lemma {:induction false} MarksLength(operations: seq<Operation>, layout: Layout, paths: seq<seq<nat>>)
    requires AllRoutable(operations, |layout|) && |paths| == |operations|
    ensures |Marks(operations, paths)| == |RouteAll(operations, layout, paths).operations|
    decreases |operations|
  {
    if |operations| > 0 {
      MarksLength(operations[1..], RouteOperation(operations[0], layout, paths[0]).layout, paths[1..]);
    }
  }

  /** Undoing the SWAPs of one path follows the layout along it. */
  lemma {:induction false} UndoSwaps(path: seq<nat>, rest: seq<Operation>, marks: seq<bool>, layout: Layout)
    requires |marks| == |rest|
    ensures Undo(SwapsAlong(path) + rest, seq(|SwapsAlong(path)|, _ => true) + marks, layout)
         == Undo(rest, marks, Walk(layout, path))
    decreases |path|
  {
    var swaps := SwapsAlong(path);
    var all := seq(|swaps|, _ => true) + marks;
    if |path| <= 2 {
      assert swaps + rest == rest && all == marks;
    } else {
      var tail := SwapsAlong(path[1..]);
      assert (swaps + rest)[1..] == tail + rest;
      assert all[1..] == seq(|tail|, _ => true) + marks;
      UndoSwaps(path[1..], rest, marks, SwapLayout(layout, path[0], path[1]));
    }
  }

  lemma UndoOne(operation: Operation, marks: seq<bool>, rest: seq<Operation>, layout: Layout)
    requires |marks| == |rest|
    ensures Undo([operation] + rest, [false] + marks, layout)
         == var undone := Undo(rest, marks, layout);
            if undone.None? then None
            else Some(Routed([ReturnOperation(operation, layout)] + undone.value.operations, undone.value.layout))
  {
    assert ([operation] + rest)[1..] == rest && ([false] + marks)[1..] == marks;
  }

  /** What undoing does to the output of one operation. */
  lemma UndoOperation(operation: Operation, layout: Layout, path: seq<nat>, rest: seq<Operation>, marks: seq<bool>)
    requires Routable(BodyOf(operation), |layout|) && Injective(layout) && |marks| == |rest|
    ensures var first := RouteOperation(operation, layout, path);
      var inserted := if IsTwoQubitGate(BodyOf(operation)) then |SwapsAlong(path)| else 0;
      && |first.operations| == inserted + 1
      && var undone := Undo(first.operations + rest, seq(inserted, _ => true) + [false] + marks, layout);
         var tail := Undo(rest, marks, first.layout);
         if Direct(operation, path) then
           undone == if tail.None? then None
                     else Some(Routed([operation] + tail.value.operations, tail.value.layout))
         else undone.None? || (|undone.value.operations| > 0 && undone.value.operations[0] != operation)
  {
    hide Walk, Injective, Undo, ReturnSimple;
    var body := BodyOf(operation);
    var first := RouteOperation(operation, layout, path);
    var two := IsTwoQubitGate(body);
    var swaps := if two then SwapsAlong(path) else [];
    var yes := seq(|swaps|, _ => true);
    var last := first.operations[|swaps|];
    WalkInjective(layout, path);
    ReturnRelocated(body, first.layout);
    UndoOne(last, marks, rest, first.layout);
    assert yes + [false] + marks == yes + ([false] + marks);
    match operation {
      case Plain(_) =>
        assert first.operations + rest == swaps + ([last] + rest);
        if two {
          UndoSwaps(path, [last] + rest, [false] + marks, layout);
        } else {
          assert swaps + ([last] + rest) == [last] + rest && yes + ([false] + marks) == [false] + marks;
        }
      case Conditional(condition, _) =>
        if |swaps| == 0 {
          assert first.operations + rest == [last] + rest && yes + ([false] + marks) == [false] + marks;
          if two { NoSwapsNoWalk(layout, path); }
        } else {
          var all := first.operations + rest;
          assert all[0].Conditional? && (yes + [false] + marks)[0];
          UndoRefuses(all, yes + [false] + marks, layout);
        }
    }
  }

  lemma NoSwapsNoWalk(layout: Layout, path: seq<nat>)
    requires |SwapsAlong(path)| == 0
    ensures Walk(layout, path) == layout && |path| <= 2
  {
  }

  lemma UndoRefuses(operations: seq<Operation>, marks: seq<bool>, layout: Layout)
    requires |marks| == |operations| > 0 && marks[0] && operations[0].Conditional?
    ensures Undo(operations, marks, layout).None?
  {
  }

  /**
   * Routing is erasable exactly when every conditional is direct: undoing the inserted SWAPs then yields the source
   * operation list and the recorded final layout, and otherwise it does not.
   */
  lemma {:induction false} RoutingErasable(operations: seq<Operation>, layout: Layout, paths: seq<seq<nat>>)
    requires AllRoutable(operations, |layout|) && |paths| == |operations| && Injective(layout)
    ensures |Marks(operations, paths)| == |RouteAll(operations, layout, paths).operations|
    ensures var routed := RouteAll(operations, layout, paths);
      Undo(routed.operations, Marks(operations, paths), layout) == Some(Routed(operations, routed.layout))
      <==> AllDirect(operations, paths)
    decreases |operations|
  {
    MarksLength(operations, layout, paths);
    if |operations| > 0 {
      hide Injective, Undo, Direct, SwapsAlong, Walk;
      var op, tail := operations[0], operations[1..];
      var first := RouteOperation(op, layout, paths[0]);
      var rest := RouteAll(tail, first.layout, paths[1..]);
      WalkInjective(layout, paths[0]);
      MarksLength(tail, first.layout, paths[1..]);
      RoutingErasable(tail, first.layout, paths[1..]);
      UndoOperation(op, layout, paths[0], rest.operations, Marks(tail, paths[1..]));
      assert operations == [op] + tail;
      assert AllDirect(operations, paths) <==> Direct(op, paths[0]) && AllDirect(tail, paths[1..]) by {
        DirectSplit(operations, paths);
      }
      var undone := Undo(rest.operations, Marks(tail, paths[1..]), first.layout);
      if undone.Some? {
        assert ([op] + undone.value.operations)[1..] == undone.value.operations;
      }
    } else {
      assert operations == [];
    }
  }

  lemma DirectSplit(operations: seq<Operation>, paths: seq<seq<nat>>)
    requires |paths| == |operations| > 0
    ensures AllDirect(operations, paths) <==> Direct(operations[0], paths[0]) && AllDirect(operations[1..], paths[1..])
  {
    hide Direct;
    if Direct(operations[0], paths[0]) && AllDirect(operations[1..], paths[1..]) {
      forall k | 0 <= k < |operations| ensures Direct(operations[k], paths[k]) {
        if k > 0 { assert Direct(operations[1..][k - 1], paths[1..][k - 1]); }
      }
    }
    if AllDirect(operations, paths) {
      forall k | 0 <= k < |operations| - 1 ensures Direct(operations[1..][k], paths[1..][k]) {
        assert Direct(operations[k + 1], paths[k + 1]);
      }
    }
  }
}
