/**
 * The router itself (src/engine/transpile.ts:103-330): two layout maps updated in place while operations are
 * emitted. Every method is proved against RoutingSpec; register names are resolved to flat positions beforehand.
 */
module Router {
  import opened Options
  import opened Circuits
  import opened CouplingGraph
  import opened Conditionals
  import opened RoutingSpec
  import opened RoutingSemantics
  import S = Semantics

  datatype TranspileError =
    | TooManyQubits | TooFewOperational | LayoutLength | NotOperational | NoRoute | GateTooWide

  datatype Transpiled = Transpiled(
    operations: seq<Operation>,
    initialLayout: Layout,
    finalLayout: Layout,
    swapCount: nat,
    twoQubitGateCount: nat)

  datatype Result<T> = Ok(value: T) | Err(error: TranspileError)

  /** Operands in range, and distinct within a gate; gates may still be too wide to route. */
  predicate Placed(simple: Simple, width: nat) {
    match simple
    case Apply(gate) => DistinctQubits(gate.qubits) && forall i :: 0 <= i < |gate.qubits| ==> gate.qubits[i] < width
    case _ => Routable(simple, width)
  }

  predicate AllPlaced(operations: seq<Operation>, width: nat) {
    forall k :: 0 <= k < |operations| ==> Placed(BodyOf(operations[k]), width)
  }

  /** The two layout maps are mutually inverse. */
  ghost predicate Inverse(logicalToPhysical: Layout, physicalToLogical: map<nat, nat>) {
    && (forall l: nat :: l < |logicalToPhysical| ==>
          logicalToPhysical[l] in physicalToLogical && physicalToLogical[logicalToPhysical[l]] == l)
    && forall p: nat :: p in physicalToLogical ==>
          physicalToLogical[p] < |logicalToPhysical| && logicalToPhysical[physicalToLogical[p]] == p
  }

  lemma InverseInjective(logicalToPhysical: Layout, physicalToLogical: map<nat, nat>)
    requires Inverse(logicalToPhysical, physicalToLogical)
    ensures Injective(logicalToPhysical)
  {
    forall i, j | 0 <= i < j < |logicalToPhysical| ensures logicalToPhysical[i] != logicalToPhysical[j] {
      var a: nat, b: nat := i, j;
      assert physicalToLogical[logicalToPhysical[a]] == a && physicalToLogical[logicalToPhysical[b]] == b;
    }
  }

  /** A gate on two qubits between which no walk leads. */
  ghost predicate LacksRoute(adjacency: Adjacency, simple: Simple, layout: Layout)
    requires Placed(simple, |layout|)
  {
    IsTwoQubitGate(simple) && !Connected(adjacency, layout[simple.gate.qubits[0]], layout[simple.gate.qubits[1]])
  }

  class LayoutTracker {
    const adjacency: Adjacency
    var logicalToPhysical: Layout
    var physicalToLogical: map<nat, nat>
    var operations: seq<Operation>
    var swapCount: nat
    var twoQubitGateCount: nat

    ghost predicate Valid()
      reads this
    {
      Inverse(logicalToPhysical, physicalToLogical)
    }

    constructor (adjacency: Adjacency, initialLayout: Layout)
      requires Injective(initialLayout)
      ensures Valid() && this.adjacency == adjacency && logicalToPhysical == initialLayout
      ensures operations == [] && swapCount == 0 && twoQubitGateCount == 0
    {
      this.adjacency := adjacency;
      logicalToPhysical := initialLayout;
      physicalToLogical := map[];
      operations, swapCount, twoQubitGateCount := [], 0, 0;
      new;
      for logical := 0 to |initialLayout|
        invariant logicalToPhysical == initialLayout
        invariant operations == [] && swapCount == 0 && twoQubitGateCount == 0
        invariant forall l: nat :: l < logical ==>
          initialLayout[l] in physicalToLogical && physicalToLogical[initialLayout[l]] == l
        invariant forall p: nat :: p in physicalToLogical ==>
          physicalToLogical[p] < logical && initialLayout[physicalToLogical[p]] == p
      {
        physicalToLogical := physicalToLogical[initialLayout[logical] := logical];
      }
    }

    /** Exchanges what two physical qubits hold; either may hold nothing. */
    method SwapLogical(a: nat, b: nat)
      requires Valid() && a != b
      modifies this`logicalToPhysical, this`physicalToLogical
      ensures Valid() && logicalToPhysical == SwapLayout(old(logicalToPhysical), a, b)
    {
      var before := physicalToLogical;
      if a in before {
        logicalToPhysical := logicalToPhysical[before[a] := b];
      }
      if b in before {
        logicalToPhysical := logicalToPhysical[before[b] := a];
      }
      if a in before {
        physicalToLogical := physicalToLogical[b := before[a]];
      } else {
        physicalToLogical := physicalToLogical - {b};
      }
      if b in before {
        physicalToLogical := physicalToLogical[a := before[b]];
      } else {
        physicalToLogical := physicalToLogical - {a};
      }
      assert logicalToPhysical == SwapLayout(old(logicalToPhysical), a, b);
    }

    /** Walks the control next to the target along a shortest path, emitting one SWAP per step. */
    method EmitRouting(control: nat, target: nat) returns (found: bool, ghost path: seq<nat>)
      requires Valid() && control < |logicalToPhysical| && target < |logicalToPhysical| && control != target
      requires logicalToPhysical[control] in adjacency && logicalToPhysical[target] in adjacency
      modifies this`logicalToPhysical, this`physicalToLogical, this`operations, this`swapCount
      ensures Valid()
      ensures found ==> IsShortest(adjacency, path, old(logicalToPhysical[control]), old(logicalToPhysical[target]))
      ensures found ==> operations == old(operations) + SwapsAlong(path)
      ensures found ==> logicalToPhysical == Walk(old(logicalToPhysical), path)
      ensures found ==> swapCount == old(swapCount) + |SwapsAlong(path)|
      ensures found <==> Connected(adjacency, old(logicalToPhysical[control]), old(logicalToPhysical[target]))
      ensures !found ==> unchanged(this)
    {
      hide Inverse, IsShortest, Walk, SwapsAlong, Connected;
      var from, to := logicalToPhysical[control], logicalToPhysical[target];
      InverseInjective(logicalToPhysical, physicalToLogical);
      assert from != to;
      if to in adjacency[from] {
        path := [from, to];
        AdjacentIsShortest(adjacency, from, to);
        ShortestConnects(adjacency, path, from, to);
        return true, path;
      }
      var route := ShortestPath(adjacency, from, to);
      if route.None? {
        return false, [];
      }
      path := route.value;
      ShortestConnects(adjacency, path, from, to);
      WalkAlong(route.value, from, to);
      found := true;
    }

    /** One SWAP per step of a shortest path, stopping one short of its end. */
    method WalkAlong(steps: seq<nat>, ghost from: nat, ghost to: nat)
      requires Valid() && IsShortest(adjacency, steps, from, to)
      modifies this`logicalToPhysical, this`physicalToLogical, this`operations, this`swapCount
      ensures Valid()
      ensures operations == old(operations) + SwapsAlong(steps)
      ensures logicalToPhysical == Walk(old(logicalToPhysical), steps)
      ensures swapCount == old(swapCount) + |SwapsAlong(steps)|
    {
      hide Inverse, IsShortest, Walk, SwapsAlong, SwapLayout;
      if |steps| <= 2 {
        ShortPathStays(logicalToPhysical, steps);
        return;
      }
      var step := 0;
      assert steps[0..] == steps;
      while step < |steps| - 2
        invariant 0 <= step <= |steps| - 2
        invariant Valid()
        invariant operations + SwapsAlong(steps[step..]) == old(operations) + SwapsAlong(steps)
        invariant Walk(logicalToPhysical, steps[step..]) == Walk(old(logicalToPhysical), steps)
        invariant swapCount + |SwapsAlong(steps[step..])| == old(swapCount) + |SwapsAlong(steps)|
      {
        var a, b := steps[step], steps[step + 1];
        StepAlong(logicalToPhysical, steps, step, from, to, adjacency);
        assert operations + ([SwapOn(a, b)] + SwapsAlong(steps[step + 1..]))
            == (operations + [SwapOn(a, b)]) + SwapsAlong(steps[step + 1..]);
        operations := operations + [SwapOn(a, b)];
        SwapLogical(a, b);
        swapCount := swapCount + 1;
        step := step + 1;
      }
      ShortPathStays(logicalToPhysical, steps[step..]);
    }

    /** Routes and emits one simple operation; a gate wider than two qubits is refused. */
    method RouteOne(simple: Simple) returns (error: Option<TranspileError>, ghost path: seq<nat>)
      requires Valid() && Placed(simple, |logicalToPhysical|)
      requires forall l :: 0 <= l < |logicalToPhysical| ==> logicalToPhysical[l] in adjacency
      modifies this`logicalToPhysical, this`physicalToLogical, this`operations, this`swapCount, this`twoQubitGateCount
      ensures Valid() && error in {None, Some(GateTooWide), Some(NoRoute)}
      ensures error.None? ==> Routable(simple, |old(logicalToPhysical)|)
      ensures error.None? ==> PathFits(adjacency, simple, old(logicalToPhysical), path)
      ensures error.None? ==> var routed := RouteSimple(simple, old(logicalToPhysical), path);
        operations == old(operations) + routed.operations && logicalToPhysical == routed.layout
      ensures error.None? ==> swapCount == old(swapCount) + |SwapsAlong(path)|
      ensures error.None? ==> twoQubitGateCount == old(twoQubitGateCount) + if IsTwoQubitGate(simple) then 1 else 0
      ensures error == Some(GateTooWide) <==> TooWide(simple)
      ensures error == Some(NoRoute) <==> LacksRoute(adjacency, simple, old(logicalToPhysical))
    {
      hide Inverse, Walk, IsShortest, SwapsAlong, Connected;
      path := [];
      NoSwapsOnEmpty();
      if simple.Apply? && |simple.gate.qubits| > 2 {
        return Some(GateTooWide), path;
      }
      ghost var before := operations;
      if simple.Apply? && |simple.gate.qubits| == 2 {
        var found;
        found, path := EmitRouting(simple.gate.qubits[0], simple.gate.qubits[1]);
        if !found {
          return Some(NoRoute), path;
        }
        twoQubitGateCount := twoQubitGateCount + 1;
      }
      ghost var swaps := if IsTwoQubitGate(simple) then SwapsAlong(path) else [];
      assert operations == before + swaps;
      operations := operations + [Plain(RelocateSimple(simple, logicalToPhysical))];
      assert operations == before + (swaps + [Plain(RelocateSimple(simple, logicalToPhysical))]);
      return None, path;
    }

    /** A conditional is routed like its body, and everything the body emitted is put under the condition. */
    method RouteNext(operation: Operation) returns (error: Option<TranspileError>, ghost path: seq<nat>)
      requires Valid() && Placed(BodyOf(operation), |logicalToPhysical|)
      requires forall l :: 0 <= l < |logicalToPhysical| ==> logicalToPhysical[l] in adjacency
      modifies this`logicalToPhysical, this`physicalToLogical, this`operations, this`swapCount, this`twoQubitGateCount
      ensures Valid() && error in {None, Some(GateTooWide), Some(NoRoute)}
      ensures error.None? ==> Routable(BodyOf(operation), |old(logicalToPhysical)|)
      ensures error.None? ==> PathFits(adjacency, BodyOf(operation), old(logicalToPhysical), path)
      ensures error.None? ==> var routed := RouteOperation(operation, old(logicalToPhysical), path);
        operations == old(operations) + routed.operations && logicalToPhysical == routed.layout
      ensures error.None? ==> swapCount == old(swapCount) + |SwapsAlong(path)|
      ensures error.None? ==>
        twoQubitGateCount == old(twoQubitGateCount) + if IsTwoQubitGate(BodyOf(operation)) then 1 else 0
      ensures error == Some(GateTooWide) <==> TooWide(BodyOf(operation))
      ensures error == Some(NoRoute) <==> LacksRoute(adjacency, BodyOf(operation), old(logicalToPhysical))
    {
      hide Inverse, Walk, IsShortest, SwapsAlong, LacksRoute, RouteSimple, Guard;
      match operation {
        case Plain(simple) =>
          error, path := RouteOne(simple);
        case Conditional(condition, body) =>
          var before := |operations|;
          error, path := RouteOne(body);
          if error.None? {
            var emitted := operations[before..];
            operations := operations[..before] + Guard(condition, emitted);
            assert emitted == RouteSimple(body, old(logicalToPhysical), path).operations;
          }
      }
    }
  }

  lemma ShortestConnects(adjacency: Adjacency, path: seq<nat>, from: nat, to: nat)
    requires IsShortest(adjacency, path, from, to)
    ensures Connected(adjacency, from, to)
  {
  }

  lemma NoSwapsOnEmpty()
    ensures SwapsAlong([]) == []
  {
  }

  lemma ShortPathStays(layout: Layout, path: seq<nat>)
    requires |path| <= 2
    ensures SwapsAlong(path) == [] && Walk(layout, path) == layout
  {
  }

  lemma AdjacentIsShortest(adjacency: Adjacency, from: nat, to: nat)
    requires from != to && from in adjacency && to in adjacency && to in adjacency[from]
    ensures IsShortest(adjacency, [from, to], from, to)
    ensures SwapsAlong([from, to]) == [] && forall layout: Layout :: Walk(layout, [from, to]) == layout
  {
    assert Edge(adjacency, from, to);
    assert IsWalk(adjacency, [from, to], from, to);
  }

  /** One SWAP along a shortest path: its ends differ, and the spec functions take the same step. */
  lemma StepAlong(layout: Layout, steps: seq<nat>, step: nat, from: nat, to: nat, adjacency: Adjacency)
    requires step < |steps| - 2 && IsShortest(adjacency, steps, from, to)
    ensures steps[step] != steps[step + 1]
    ensures SwapsAlong(steps[step..]) == [SwapOn(steps[step], steps[step + 1])] + SwapsAlong(steps[step + 1..])
    ensures Walk(layout, steps[step..]) == Walk(SwapLayout(layout, steps[step], steps[step + 1]), steps[step + 1..])
  {
    assert steps[step..][1..] == steps[step + 1..];
  }

  // ---------------------------------------------------------------- appending one operation to the specification

  lemma {:induction false} RouteAllAppend(
    operations: seq<Operation>, layout: Layout, paths: seq<seq<nat>>, operation: Operation, path: seq<nat>)
    requires AllRoutable(operations, |layout|) && |paths| == |operations| && Routable(BodyOf(operation), |layout|)
    ensures AllRoutable(operations + [operation], |layout|)
    ensures var before := RouteAll(operations, layout, paths);
      var last := RouteOperation(operation, before.layout, path);
      RouteAll(operations + [operation], layout, paths + [path])
        == Routed(before.operations + last.operations, last.layout)
    decreases |operations|
  {
    hide RouteOperation;
    var ops, ps := operations + [operation], paths + [path];
    assert forall k :: 0 <= k < |ops| ==> ops[k] == operation || (k < |operations| && ops[k] == operations[k]);
    if |operations| == 0 {
      assert ops == [operation] && ps == [path];
      assert ops[1..] == [] && ps[1..] == [];
    } else {
      assert ops[1..] == operations[1..] + [operation] && ps[1..] == paths[1..] + [path];
      RouteAllAppend(operations[1..], RouteOperation(operations[0], layout, paths[0]).layout, paths[1..], operation,
                     path);
    }
  }

  lemma {:induction false} PathsFitAppend(
    adjacency: Adjacency, operations: seq<Operation>, layout: Layout, paths: seq<seq<nat>>,
    operation: Operation, path: seq<nat>)
    requires AllRoutable(operations, |layout|) && |paths| == |operations| && Routable(BodyOf(operation), |layout|)
    requires AllRoutable(operations + [operation], |layout|)
    requires PathsFit(adjacency, operations, layout, paths)
    requires PathFits(adjacency, BodyOf(operation), RouteAll(operations, layout, paths).layout, path)
    ensures PathsFit(adjacency, operations + [operation], layout, paths + [path])
    decreases |operations|
  {
    hide RouteOperation, PathFits;
    var ops, ps := operations + [operation], paths + [path];
    if |operations| == 0 {
      assert ops[1..] == [] && ps[1..] == [];
    } else {
      assert ops[1..] == operations[1..] + [operation] && ps[1..] == paths[1..] + [path];
      PathsFitAppend(adjacency, operations[1..], RouteOperation(operations[0], layout, paths[0]).layout, paths[1..],
        operation, path);
    }
  }

  // ---------------------------------------------------------------- the whole transpilation

  /** The coupling graph of a profile, as CouplingAdjacency builds it. */
  ghost predicate Describes(adjacency: Adjacency, profile: Profile) {
    && (forall q: nat :: q in adjacency <==> Operational(profile, q))
    && forall a: nat, b: nat :: Edge(adjacency, a, b) <==>
         (Operational(profile, a) && Operational(profile, b)
          && if profile.allToAll then a != b else Coupled(profile.couplings, a, b))
  }

  function OperationalList(profile: Profile, below: nat): (qubits: seq<nat>)
    ensures forall q: nat :: q in qubits <==> q < below && q !in profile.inoperable
    ensures forall i, j :: 0 <= i < j < |qubits| ==> qubits[i] < qubits[j]
  {
    if below == 0 then []
    else
      var rest := OperationalList(profile, below - 1);
      if below - 1 in profile.inoperable then rest
      else
        assert forall i :: 0 <= i < |rest| ==> rest[i] in rest;
        rest + [below - 1]
  }

  /** What a successful transpilation reports, in terms of the paths it chose. */
  ghost predicate Reports(
    adjacency: Adjacency, operations: seq<Operation>, paths: seq<seq<nat>>, width: nat, t: Transpiled)
  {
    && |t.initialLayout| == width && Injective(t.initialLayout)
    && (forall l :: 0 <= l < width ==> t.initialLayout[l] in adjacency)
    && AllRoutable(operations, width) && |paths| == |operations|
    && PathsFit(adjacency, operations, t.initialLayout, paths)
    && RouteAll(operations, t.initialLayout, paths) == Routed(t.operations, t.finalLayout)
    && t.swapCount == SwapCost(paths) && t.twoQubitGateCount == TwoQubitGates(operations)
  }

  /** How many operations apply a two-qubit gate, under a condition or not. */
  function TwoQubitGates(operations: seq<Operation>): nat {
    if |operations| == 0 then 0
    else
      TwoQubitGates(operations[..|operations| - 1])
      + if IsTwoQubitGate(BodyOf(operations[|operations| - 1])) then 1 else 0
  }

  /** What routing refuses, judged by where the operands start. */
  ghost predicate Fails(adjacency: Adjacency, operation: Operation, initial: Layout)
    requires Placed(BodyOf(operation), |initial|)
  {
    TooWide(BodyOf(operation)) || LacksRoute(adjacency, BodyOf(operation), initial)
  }

  /** The first operation that routing refuses. */
  ghost predicate FailsFirst(adjacency: Adjacency, operations: seq<Operation>, initial: Layout, k: nat)
    requires AllPlaced(operations, |initial|)
  {
    && k < |operations| && Fails(adjacency, operations[k], initial)
    && forall j :: 0 <= j < k ==> !Fails(adjacency, operations[j], initial)
  }

  /** Moving along walks neither joins nor parts two qubits. */
  lemma SameComponents(adjacency: Adjacency, initial: Layout, current: Layout, i: nat, j: nat)
    requires Symmetric(adjacency) && |initial| == |current| && StaysConnected(adjacency, initial, current)
    requires i < |initial| && j < |initial|
    ensures Connected(adjacency, initial[i], initial[j]) <==> Connected(adjacency, current[i], current[j])
  {
    hide IsWalk, Symmetric;
    var p: seq<nat> :| IsWalk(adjacency, p, initial[i], current[i]);
    var q: seq<nat> :| IsWalk(adjacency, q, initial[j], current[j]);
    ConnectedSym(adjacency, p, initial[i], current[i]);
    ConnectedSym(adjacency, q, initial[j], current[j]);
    hide Connected;
    if Connected(adjacency, initial[i], initial[j]) {
      ConnectedTrans(adjacency, current[i], initial[i], initial[j]);
      ConnectedTrans(adjacency, current[i], initial[j], current[j]);
    }
    if Connected(adjacency, current[i], current[j]) {
      ConnectedTrans(adjacency, initial[i], current[i], current[j]);
      ConnectedTrans(adjacency, initial[i], current[j], initial[j]);
    }
  }

  lemma FailsNowOrThen(adjacency: Adjacency, initial: Layout, current: Layout, simple: Simple)
    requires Symmetric(adjacency) && |initial| == |current| && StaysConnected(adjacency, initial, current)
    requires Placed(simple, |initial|)
    ensures LacksRoute(adjacency, simple, current) <==> LacksRoute(adjacency, simple, initial)
  {
    hide Connected, StaysConnected, Symmetric;
    if IsTwoQubitGate(simple) {
      SameComponents(adjacency, initial, current, simple.gate.qubits[0], simple.gate.qubits[1]);
    }
  }

  lemma StepStaysConnected(adjacency: Adjacency, initial: Layout, before: Layout, operation: Operation, path: seq<nat>)
    requires Symmetric(adjacency) && |initial| == |before| && StaysConnected(adjacency, initial, before)
    requires Routable(BodyOf(operation), |before|) && PathFits(adjacency, BodyOf(operation), before, path)
    requires forall l :: 0 <= l < |before| ==> before[l] in adjacency
    ensures StaysConnected(adjacency, initial, RouteOperation(operation, before, path).layout)
  {
    hide Connected, Symmetric, StaysConnected, Walk;
    var simple := BodyOf(operation);
    if IsTwoQubitGate(simple) {
      WalkStaysConnected(adjacency, before, path, before[simple.gate.qubits[0]], before[simple.gate.qubits[1]]);
      StaysTrans(adjacency, initial, before, Walk(before, path));
    }
  }

  /** Every logical qubit of a tracker sits on an operational qubit, before and after any move. */
  lemma RouteStaysOperational(adjacency: Adjacency, simple: Simple, layout: Layout, path: seq<nat>)
    requires Routable(simple, |layout|) && PathFits(adjacency, simple, layout, path) && Injective(layout)
    requires forall l :: 0 <= l < |layout| ==> layout[l] in adjacency
    ensures forall l :: 0 <= l < |layout| ==> RouteSimple(simple, layout, path).layout[l] in adjacency
  {
    if IsTwoQubitGate(simple) {
      var c, t := simple.gate.qubits[0], simple.gate.qubits[1];
      WalkStaysOperational(adjacency, layout, path, layout[c], layout[t]);
    }
  }

  lemma {:induction false} WalkStaysOperational(
    adjacency: Adjacency, layout: Layout, path: seq<nat>, from: nat, to: nat)
    requires IsWalk(adjacency, path, from, to)
    requires forall l :: 0 <= l < |layout| ==> layout[l] in adjacency
    ensures forall l :: 0 <= l < |layout| ==> Walk(layout, path)[l] in adjacency
    decreases |path|
  {
    if |path| > 2 {
      assert Edge(adjacency, path[0], path[0 + 1]);
      var tail := path[1..];
      forall i | 0 <= i < |tail| - 1 ensures Edge(adjacency, tail[i], tail[i + 1]) {
        assert Edge(adjacency, path[i + 1], path[i + 1 + 1]);
      }
      WalkStaysOperational(adjacency, SwapLayout(layout, path[0], path[1]), tail, path[1], to);
    }
  }

  /** The supplied layout, or the first operational qubits; checked for length and for operational qubits. */
  method ChooseLayout(width: nat, profile: Profile, supplied: Option<Layout>, couplings: Adjacency)
    returns (chosen: Result<Layout>)
    requires forall q: nat :: q in couplings <==> Operational(profile, q)
    ensures chosen.Ok? ==> |chosen.value| == width
    ensures chosen.Ok? && (supplied.Some? ==> Injective(supplied.value)) ==> Injective(chosen.value)
    ensures chosen.Ok? ==> forall l :: 0 <= l < width ==> chosen.value[l] in couplings
    ensures var operational := OperationalList(profile, profile.qubitCount);
      var fits := width <= profile.qubitCount && width <= |operational|;
      && (chosen == Err(TooManyQubits) <==> width > profile.qubitCount)
      && (chosen == Err(TooFewOperational) <==> |operational| < width <= profile.qubitCount)
      && (chosen == Err(LayoutLength) <==> fits && supplied.Some? && |supplied.value| != width)
      && (chosen == Err(NotOperational) <==>
            fits && supplied.Some? && |supplied.value| == width && exists p ::
              p in supplied.value && !Operational(profile, p))
      && (chosen.Ok? ==> chosen.value == if supplied.Some? then supplied.value else operational[..width])
    ensures chosen.Err? ==> chosen.error in {TooManyQubits, TooFewOperational, LayoutLength, NotOperational}
  {
    if width > profile.qubitCount {
      return Err(TooManyQubits);
    }
    var operational := OperationalList(profile, profile.qubitCount);
    if |operational| < width {
      return Err(TooFewOperational);
    }
    var initialLayout := if supplied.Some? then supplied.value else operational[..width];
    if |initialLayout| != width {
      return Err(LayoutLength);
    }
    assert supplied.None? ==> forall l :: 0 <= l < width ==> initialLayout[l] in operational;
    for k := 0 to width
      invariant forall l :: 0 <= l < k ==> initialLayout[l] in couplings
    {
      if initialLayout[k] !in couplings {
        assert initialLayout[k] in initialLayout;
        return Err(NotOperational);
      }
    }
    assert forall p :: p in initialLayout ==> p in couplings;
    DefaultInjective(operational, width);
    chosen := Ok(initialLayout);
  }

  function LayoutUsed(width: nat, profile: Profile, supplied: Option<Layout>): Layout {
    var operational := OperationalList(profile, profile.qubitCount);
    if supplied.Some? then supplied.value else if width <= |operational| then operational[..width] else []
  }

  /** The main loop: every operation in turn, on one tracker. */
  method RouteCircuit(couplings: Adjacency, initialLayout: Layout, operations: seq<Operation>)
    returns (result: Result<Transpiled>, ghost paths: seq<seq<nat>>)
    requires AllPlaced(operations, |initialLayout|) && Injective(initialLayout)
    requires forall l :: 0 <= l < |initialLayout| ==> initialLayout[l] in couplings
    requires Symmetric(couplings)
    ensures result.Ok? ==> Reports(couplings, operations, paths, |initialLayout|, result.value)
    ensures result.Ok? ==> result.value.initialLayout == initialLayout
    ensures result.Err? ==> result.error in {GateTooWide, NoRoute}
    ensures result.Ok? <==> forall k :: 0 <= k < |operations| ==> !Fails(couplings, operations[k], initialLayout)
    ensures result == Err(GateTooWide)
       <==> exists k: nat :: FailsFirst(couplings, operations, initialLayout, k) && TooWide(BodyOf(operations[k]))
    ensures result == Err(NoRoute)
       <==> exists k: nat :: FailsFirst(couplings, operations, initialLayout, k) && !TooWide(BodyOf(operations[k]))
  {
    hide Symmetric, StaysConnected, LacksRoute, TooWide, Injective, Connected, PathsFit, PathFits, RouteAll,
         RouteOperation, Inverse, AllRoutable, SwapsAlong, SwapCost;
    var width := |initialLayout|;
    var tracker := new LayoutTracker(couplings, initialLayout);
    paths := [];
    NothingRouted(couplings, initialLayout);
    NothingMoved(couplings, initialLayout);
    for k := 0 to |operations|
      invariant fresh(tracker) && tracker.Valid() && tracker.adjacency == couplings
      invariant |paths| == k && AllRoutable(operations[..k], width)
      invariant |tracker.logicalToPhysical| == width
      invariant forall l :: 0 <= l < width ==> tracker.logicalToPhysical[l] in couplings
      invariant RouteAll(operations[..k], initialLayout, paths) == Routed(tracker.operations, tracker.logicalToPhysical)
      invariant PathsFit(couplings, operations[..k], initialLayout, paths)
      invariant StaysConnected(couplings, initialLayout, tracker.logicalToPhysical)
      invariant forall j :: 0 <= j < k ==> !Fails(couplings, operations[j], initialLayout)
      invariant tracker.swapCount == SwapCost(paths) && tracker.twoQubitGateCount == TwoQubitGates(operations[..k])
    {
      ghost var before, emitted := tracker.logicalToPhysical, tracker.operations;
      var error;
      ghost var path;
      FailsNowOrThen(couplings, initialLayout, before, BodyOf(operations[k]));
      error, path := tracker.RouteNext(operations[k]);
      if error.Some? {
        assert FailsFirst(couplings, operations, initialLayout, k);
        OnlyFirst(couplings, operations, initialLayout, k);
        return Err(error.value), paths;
      }
      StepStaysConnected(couplings, initialLayout, before, operations[k], path);
      TrackOne(couplings, operations[..k], initialLayout, paths, operations[k], path, Routed(emitted, before));
      assert operations[..k + 1] == operations[..k] + [operations[k]] && operations[..k + 1][..k] == operations[..k];
      CostAppend(paths, path);
      paths := paths + [path];
    }
    assert operations[..|operations|] == operations;
    result := Ok(Transpiled(tracker.operations, initialLayout, tracker.logicalToPhysical,
                            tracker.swapCount, tracker.twoQubitGateCount));
  }

  lemma OnlyFirst(adjacency: Adjacency, operations: seq<Operation>, initial: Layout, k: nat)
    requires AllPlaced(operations, |initial|) && FailsFirst(adjacency, operations, initial, k)
    ensures forall j: nat :: FailsFirst(adjacency, operations, initial, j) ==> j == k
  {
    hide Fails;
    forall j: nat | FailsFirst(adjacency, operations, initial, j) ensures j == k {
      assert Fails(adjacency, operations[j], initial) && Fails(adjacency, operations[k], initial);
    }
  }

  lemma DescribedIsSymmetric(adjacency: Adjacency, profile: Profile)
    requires Describes(adjacency, profile)
    ensures Symmetric(adjacency)
  {
    forall a: nat, b: nat | Edge(adjacency, a, b) ensures Edge(adjacency, b, a) {
    }
  }

  lemma CostAppend(paths: seq<seq<nat>>, path: seq<nat>)
    ensures SwapCost(paths + [path]) == SwapCost(paths) + |SwapsAlong(path)|
  {
    assert (paths + [path])[..|paths|] == paths;
  }

  /**
   * Maps a circuit onto a device. A supplied layout is taken as it is; the default is the first operational qubits.
   * Success reports what RouteAll emits along shortest paths; and the first operation that cannot be routed, judged by
   * where its operands start, decides the error.
   */
  method TranspileForHardware(
    width: nat, operations: seq<Operation>, profile: Profile, supplied: Option<Layout>)
    returns (result: Result<Transpiled>, ghost adjacency: Adjacency, ghost paths: seq<seq<nat>>)
    requires AllPlaced(operations, width)
    requires supplied.Some? ==> Injective(supplied.value)
    ensures Describes(adjacency, profile)
    ensures result.Ok? ==> Reports(adjacency, operations, paths, width, result.value)
    ensures result.Ok? && supplied.Some? ==> result.value.initialLayout == supplied.value
    ensures var operational := OperationalList(profile, profile.qubitCount);
      var fits := width <= profile.qubitCount && width <= |operational|;
      && (result == Err(TooManyQubits) <==> width > profile.qubitCount)
      && (result == Err(TooFewOperational) <==> |operational| < width <= profile.qubitCount)
      && (result == Err(LayoutLength) <==> fits && supplied.Some? && |supplied.value| != width)
      && (result == Err(NotOperational) <==>
            fits && supplied.Some? && |supplied.value| == width && exists p ::
              p in supplied.value && !Operational(profile, p))
      && (result.Ok? && supplied.None? ==> result.value.initialLayout == operational[..width])
    ensures result.Ok? || result.error in {GateTooWide, NoRoute} ==>
        var initial := LayoutUsed(width, profile, supplied);
        && |initial| == width
        && (result.Ok? <==> forall k :: 0 <= k < |operations| ==> !Fails(adjacency, operations[k], initial))
        && (result == Err(GateTooWide)
            <==> exists k: nat :: FailsFirst(adjacency, operations, initial, k) && TooWide(BodyOf(operations[k])))
        && (result == Err(NoRoute)
            <==> exists k: nat :: FailsFirst(adjacency, operations, initial, k) && !TooWide(BodyOf(operations[k])))
  {
    hide Reports, Fails, FailsFirst, Injective, Operational, Edge, Coupled;
    paths := [];
    var couplings := CouplingAdjacency(profile);
    adjacency := couplings;
    var chosen := ChooseLayout(width, profile, supplied, couplings);
    if chosen.Err? {
      return Err(chosen.error), adjacency, paths;
    }
    DescribedIsSymmetric(couplings, profile);
    result, paths := RouteCircuit(couplings, chosen.value, operations);
  }

  lemma NothingRouted(adjacency: Adjacency, layout: Layout)
    ensures AllRoutable([], |layout|)
    ensures RouteAll([], layout, []) == Routed([], layout) && PathsFit(adjacency, [], layout, []) && SwapCost([]) == 0
  {
  }

  lemma DefaultInjective(operational: seq<nat>, width: nat)
    requires width <= |operational| && forall i, j :: 0 <= i < j < |operational| ==> operational[i] < operational[j]
    ensures Injective(operational[..width])
  {
  }

  lemma TrackOne(
    adjacency: Adjacency, operations: seq<Operation>, initial: Layout, paths: seq<seq<nat>>,
    operation: Operation, path: seq<nat>, before: Routed)
    requires AllRoutable(operations, |initial|) && |paths| == |operations| && Injective(initial)
    requires before == RouteAll(operations, initial, paths) && PathsFit(adjacency, operations, initial, paths)
    requires Routable(BodyOf(operation), |initial|) && PathFits(adjacency, BodyOf(operation), before.layout, path)
    requires forall l :: 0 <= l < |before.layout| ==> before.layout[l] in adjacency
    ensures AllRoutable(operations + [operation], |initial|)
    ensures PathsFit(adjacency, operations + [operation], initial, paths + [path])
    ensures var last := RouteOperation(operation, before.layout, path);
      && RouteAll(operations + [operation], initial, paths + [path])
         == Routed(before.operations + last.operations, last.layout)
      && forall l :: 0 <= l < |initial| ==> last.layout[l] in adjacency
  {
    RouteInjective(operations, initial, paths);
    RouteAllAppend(operations, initial, paths, operation, path);
    PathsFitAppend(adjacency, operations, initial, paths, operation, path);
    RouteStaysOperational(adjacency, BodyOf(operation), before.layout, path);
  }

  // ---------------------------------------------------------------- what a report guarantees

  lemma {:induction false} FittingPathsSimple(
    adjacency: Adjacency, operations: seq<Operation>, layout: Layout, paths: seq<seq<nat>>)
    requires AllRoutable(operations, |layout|) && |paths| == |operations|
    requires PathsFit(adjacency, operations, layout, paths)
    ensures SimplePaths(operations, paths)
    decreases |operations|
  {
    hide RouteOperation;
    if |operations| > 0 {
      FittingPathsSimple(adjacency, operations[1..], RouteOperation(operations[0], layout, paths[0]).layout,
                         paths[1..]);
      forall k | 0 <= k < |operations| && IsTwoQubitGate(BodyOf(operations[k])) ensures SimplePath(paths[k]) {
        if k > 0 {
          assert operations[k] == operations[1..][k - 1] && paths[k] == paths[1..][k - 1];
        }
      }
    }
  }

  /**
   * Any transpilation result is legal on the device, and when its conditionals lose nothing it computes the source:
   * from |0...0>, along every record of outcomes, both are refused or both end in the same branch, the routed one
   * carried through the reported final layout.
   */
  lemma TranspiledIsCorrect(
    adjacency: Adjacency, operations: seq<Operation>, paths: seq<seq<nat>>, width: nat, t: Transpiled,
    trig: S.Trig, outcome: nat -> bool)
    requires Reports(adjacency, operations, paths, width, t)
    ensures AllLegal(adjacency, t.operations)
    ensures Injective(t.finalLayout) && |t.finalLayout| == width
    ensures AllTransparent(trig, operations, paths) ==>
      var w, v := S.Run(trig, outcome, operations, S.InitialWorld()),
        S.Run(trig, outcome, t.operations, S.InitialWorld());
      (w.Some? <==> v.Some?) && (w.Some? ==> SameBranch(t.finalLayout, w.value, v.value))
  {
    hide S.Run, SameBranch, AllTransparent, SimplePaths, AllLegal;
    RoutingIsLegal(adjacency, operations, t.initialLayout, paths);
    RouteInjective(operations, t.initialLayout, paths);
    FittingPathsSimple(adjacency, operations, t.initialLayout, paths);
    InitialCarried(t.initialLayout);
    if AllTransparent(trig, operations, paths) {
      RoutingPreserves(trig, outcome, operations, t.initialLayout, paths, S.InitialWorld(), S.InitialWorld());
    }
  }
}
