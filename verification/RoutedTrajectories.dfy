/**
 * Runs of a routed circuit with the random numbers of its source (src/engine/transpile.ts:193-300,
 * src/engine/statevector.ts:349-444): the same outcomes are drawn, and the amplitudes are carried through the layout.
 */
module RoutedTrajectories {
  import opened Options
  import opened Circuits
  import opened ComplexNumbers
  import opened Semantics
  import opened OperatorLaws
  import opened RealPowers
  import opened Statevector
  import opened Trajectories
  import opened RoutingSpec
  import opened RoutingSemantics
  import opened Conditionals
  import Sums = Summation

  // ---------------------------------------------------------------- sums through a layout

  lemma PullNothing(layout: Layout)
    ensures Pull(layout, {}) == {}
  {
  }

  /** A sum over occupied qubits, of what the layout reads there, is the sum over the logical ones. */
  lemma {:induction false} SumThroughLayout(
    layout: Layout, m: nat, ones: set<int>, f: set<int> -> Complex, g: set<int> -> Complex)
    requires Injective(layout) && m <= |layout| && forall o :: f(o) == g(Pull(layout, o))
    ensures Sums.Sum(layout[..m], ones, f) == Sums.Sum(Qubits(m), Pull(layout, ones), g)
    decreases m
  {
    hide Injective, Pull;
    if m > 0 {
      var ids, last := layout[..m], layout[m - 1] as int;
      assert ids[..m - 1] == layout[..m - 1] && ids[m - 1] == last;
      assert Qubits(m)[..m - 1] == Qubits(m - 1);
      PullAdd(layout, ones, m - 1);
      SumThroughLayout(layout, m - 1, ones, f, g);
      SumThroughLayout(layout, m - 1, ones + {last}, f, g);
    }
  }

  /** Nothing is summed outside some of the variables. */
  ghost predicate IsOnly(ids: seq<int>, picked: seq<int>, f: set<int> -> Complex) {
    forall o :: Sums.Between({}, ids, o) && !(o <= Sums.ToSet(picked)) ==> f(o) == ZERO
  }

  lemma WithoutMember(ids: seq<int>, k: nat, o: set<int>)
    requires Sums.Distinct(ids) && k < |ids| && Sums.Between({}, Sums.Without(ids, k), o)
    ensures ids[k] !in o && Sums.Between({}, ids, o) && Sums.Between({}, ids, o + {ids[k]})
  {
  }

  lemma WithoutDistinct(ids: seq<int>, k: nat)
    requires Sums.Distinct(ids) && k < |ids|
    ensures var rest := Sums.Without(ids, k);
      Sums.Distinct(rest) && Sums.ToSet(rest) == Sums.ToSet(ids) - {ids[k]}
  {
    var rest := Sums.Without(ids, k);
    assert forall i :: 0 <= i < |rest| ==> rest[i] == if i < k then ids[i] else ids[i + 1];
    forall x | x in ids && x != ids[k] ensures x in rest {
      var i :| 0 <= i < |ids| && ids[i] == x;
      assert i < k ==> rest[i] == x;
      assert i > k ==> rest[i - 1] == x;
    }
  }

  /** The last picked variable, summed out of both lists. */
  lemma OneLess(ids: seq<int>, picked: seq<int>, k: nat, f: set<int> -> Complex, g: set<int> -> Complex)
    requires Sums.Distinct(ids) && Sums.Distinct(picked) && |picked| > 0 && k < |ids| && ids[k] == picked[|picked| - 1]
    requires Sums.ToSet(picked) <= Sums.ToSet(ids) && IsOnly(ids, picked, f)
    requires forall o :: g(o) == Add(f(o), f(o + {ids[k]}))
    ensures Sums.Sum(ids, {}, f) == Sums.Sum(Sums.Without(ids, k), {}, g)
    ensures Sums.Sum(picked, {}, f) == Sums.Sum(picked[..|picked| - 1], {}, g)
    ensures IsOnly(Sums.Without(ids, k), picked[..|picked| - 1], g)
    ensures Sums.ToSet(picked[..|picked| - 1]) <= Sums.ToSet(Sums.Without(ids, k))
  {
    hide Sums.Sum, Sums.Distinct;
    var x, rest, fewer := ids[k], Sums.Without(ids, k), picked[..|picked| - 1];
    forall o: set<int> ensures Add(f(o), f(o + {x})) == Mul(ONE, g(o)) { MulOne(g(o)); }
    Sums.SumOut(ids, k, {}, f, ONE, g);
    Sums.SumPair(fewer, {}, x, f, ONE, g);
    MulOne(Sums.Sum(rest, {}, g));
    MulOne(Sums.Sum(fewer, {}, g));
    LastSummed(picked, f);
    WithoutDistinct(ids, k);
    LastPicked(picked);
    forall o | Sums.Between({}, rest, o) && !(o <= Sums.ToSet(fewer)) ensures g(o) == ZERO {
      WithoutMember(ids, k, o);
      assert !(o <= Sums.ToSet(picked)) && !(o + {x} <= Sums.ToSet(picked));
    }
  }

  lemma LastSummed(picked: seq<int>, f: set<int> -> Complex)
    requires |picked| > 0
    ensures var fewer, last := picked[..|picked| - 1], picked[|picked| - 1];
      Sums.Sum(picked, {}, f) == Add(Sums.Sum(fewer, {}, f), Sums.Sum(fewer, {} + {last}, f))
  {
  }

  lemma LastPicked(picked: seq<int>)
    requires |picked| > 0 && Sums.Distinct(picked)
    ensures var fewer, last := picked[..|picked| - 1], picked[|picked| - 1];
      Sums.Distinct(fewer) && Sums.ToSet(fewer) == Sums.ToSet(picked) - {last}
  {
    assert picked == picked[..|picked| - 1] + [picked[|picked| - 1]];
  }

  /** Variables outside which nothing is summed can be left out, and the others taken in any order. */
  lemma {:induction false} SumOfPicked(ids: seq<int>, picked: seq<int>, f: set<int> -> Complex)
    requires Sums.Distinct(ids) && Sums.Distinct(picked) && Sums.ToSet(picked) <= Sums.ToSet(ids)
      && IsOnly(ids, picked, f)
    ensures Sums.Sum(ids, {}, f) == Sums.Sum(picked, {}, f)
    decreases |picked|
  {
    hide Sums.Distinct, Sums.Sum;
    if |picked| == 0 {
      assert Sums.ToSet(picked) == {};
      Sums.SumSingle(ids, {}, f, {});
      OnlyTheEmpty(f);
    } else {
      var x := picked[|picked| - 1];
      assert x in Sums.ToSet(picked);
      var k: nat :| k < |ids| && ids[k] == x;
      var g := (o: set<int>) => Add(f(o), f(o + {x}));
      OneLess(ids, picked, k, f, g);
      WithoutDistinct(ids, k);
      LastPicked(picked);
      SumOfPicked(Sums.Without(ids, k), picked[..|picked| - 1], g);
    }
  }

  lemma OnlyTheEmpty(f: set<int> -> Complex)
    ensures Sums.Sum([], {}, f) == f({})
  {
  }

  // ---------------------------------------------------------------- the weight of a carried state

  predicate Fits(layout: Layout, n: nat) {
    forall l :: 0 <= l < |layout| ==> layout[l] < n
  }

  lemma QubitsDistinct(n: nat)
    ensures Sums.Distinct(Qubits(n))
  {
  }

  /** A layout carries all the weight there is. */
  lemma CarriedWeight(layout: Layout, n: nat, psi: State, phi: State)
    requires Injective(layout) && Fits(layout, n) && Carries(layout, psi, phi)
    ensures Weight(n, phi) == Weight(|layout|, psi)
  {
    hide NormSq, Pull;
    var picked: seq<int> := layout;
    assert Sums.ToSet(picked) == Occupied(layout);
    forall p | p in picked ensures p in Qubits(n) { assert Qubits(n)[p] == p; }
    QubitsDistinct(n);
    NoNorm();
    SumOfPicked(Qubits(n), picked, Weights(phi));
    var f := (o: set<int>) => Weights(psi)(Pull(layout, o));
    forall o | Sums.Between({}, picked, o) ensures Weights(phi)(o) == f(o) {
      assert o <= {} + Sums.ToSet(picked);
      WeightAtPull(layout, psi, phi, o);
    }
    Sums.SumCongruent(picked, {}, Weights(phi), f);
    SumThroughLayout(layout, |layout|, {}, f, Weights(psi));
    assert layout[..|layout|] == layout;
    PullNothing(layout);
  }

  lemma WeightAtPull(layout: Layout, psi: State, phi: State, o: set<int>)
    requires Carries(layout, psi, phi) && o <= Occupied(layout)
    ensures Weights(phi)(o) == Weights(psi)(Pull(layout, o))
  {
  }

  lemma NoNorm()
    ensures NormSq(ZERO) == 0.0
  {
  }

  // ---------------------------------------------------------------- one operation

  /** The same branch on a device of n qubits. */
  ghost predicate Follows(layout: Layout, n: nat, w: World, v: World) {
    Injective(layout) && Fits(layout, n) && SameBranch(layout, w, v)
  }

  lemma DrawnAlike(random: nat -> real, layout: Layout, n: nat, w: World, v: World, qubit: nat)
    requires Follows(layout, n, w, v) && qubit < |layout|
    ensures Drawn(random, |layout|, w, qubit) == Drawn(random, n, v, layout[qubit])
  {
    hide Weight, Carries, Injective, Project;
    ProjectCarried(layout, qubit, true, w.state, v.state);
    CarriedWeight(layout, n, Project(w.state, qubit, true), Project(v.state, layout[qubit], true));
  }

  lemma ScaledCarried(layout: Layout, r: real, psi: State, phi: State)
    requires Carries(layout, psi, phi)
    ensures Carries(layout, Scaled(r, psi), Scaled(r, phi))
  {
    hide Occupied, Pull;
  }

  lemma CollapsedAlike(sqrt: real -> real, layout: Layout, n: nat, psi: State, phi: State, qubit: nat, one: bool)
    requires IsSquareRoot(sqrt) && Injective(layout) && Fits(layout, n) && Carries(layout, psi, phi) && qubit < |layout|
    ensures var c, d := Collapsed(sqrt, |layout|, psi, qubit, one), Collapsed(sqrt, n, phi, layout[qubit], one);
      (c.Some? <==> d.Some?) && (c.Some? ==> Carries(layout, c.value, d.value))
  {
    hide Weight, Carries, Injective, Project, IsSquareRoot, Scaled;
    var a, b := Project(psi, qubit, one), Project(phi, layout[qubit], one);
    ProjectCarried(layout, qubit, one, psi, phi);
    CarriedWeight(layout, n, a, b);
    var weight := Weight(n, b);
    if weight != 0.0 {
      RootPositive(sqrt, weight);
      ScaledCarried(layout, 1.0 / sqrt(weight), a, b);
    }
  }

  predicate IsDrawn(body: Simple) {
    body.Measure? || body.Reset?
  }

  /** A measurement or a reset draws the same outcome from the same number. */
  lemma DrawnCarried(
    trig: Trig, sqrt: real -> real, random: nat -> real, layout: Layout, n: nat, body: Simple, w: World, v: World)
    requires IsSquareRoot(sqrt) && Routable(body, |layout|) && IsDrawn(body) && Follows(layout, n, w, v)
    ensures EndAlike(layout, RunBody(trig, sqrt, random, |layout|, body, w),
                     RunBody(trig, sqrt, random, n, RelocateSimple(body, layout), v))
  {
    hide Carries, Injective, Collapsed, Drawn, IsSquareRoot, After, StepSimple, RelocateOperator;
    var qubit := body.qubit;
    var one := Drawn(random, |layout|, w, qubit);
    DrawnAlike(random, layout, n, w, v, qubit);
    CollapsedAlike(sqrt, layout, n, w.state, v.state, qubit, one);
    var c := Collapsed(sqrt, |layout|, w.state, qubit, one);
    if body.Reset? && c.Some? {
      FlipRelocated(qubit, layout);
      OperatorCarried(Matrix(FLIP, {}, qubit), layout, c.value, Collapsed(sqrt, n, v.state, layout[qubit], one).value);
    }
  }

  lemma OneRun(
    trig: Trig, sqrt: real -> real, random: nat -> real, n: nat, operation: Operation, v: World)
    requires IsSquareRoot(sqrt)
    ensures Trajectory(trig, sqrt, random, n, [operation], v) == RunOperation(trig, sqrt, random, n, operation, v)
  {
    hide RunOperation, IsSquareRoot;
    var all := [operation];
    assert all[1..] == [];
    var next := RunOperation(trig, sqrt, random, n, operation, v);
    if next.Some? { assert Trajectory(trig, sqrt, random, n, [], next.value) == next; }
  }

  /** Drawing operations are routed to one operation each, which runs alike. */
  lemma DrawingRunsAlike(
    trig: Trig, sqrt: real -> real, random: nat -> real, layout: Layout, n: nat, operation: Operation, path: seq<nat>,
    w: World, v: World)
    requires IsSquareRoot(sqrt) && Routable(BodyOf(operation), |layout|) && IsDrawn(BodyOf(operation))
    requires IsTransparent(trig, operation, path) && Follows(layout, n, w, v)
    ensures var first := RouteOperation(operation, layout, path);
      && first.layout == layout
      && EndAlike(layout, RunOperation(trig, sqrt, random, |layout|, operation, w),
                  Trajectory(trig, sqrt, random, n, first.operations, v))
  {
    hide Carries, Injective, Fits, IsSquareRoot, RunBody, Trajectory, Holds, DropIsHarmless, RelocateSimple;
    var body := BodyOf(operation);
    var last := RelocateSimple(body, layout);
    DrawnCarried(trig, sqrt, random, layout, n, body, w, v);
    match operation {
      case Plain(_) =>
        assert RouteOperation(operation, layout, path).operations == [Plain(last)];
        OneRun(trig, sqrt, random, n, Plain(last), v);
      case Conditional(condition, _) =>
        OneGuarded(condition, body, layout, path);
        OneRun(trig, sqrt, random, n, Conditional(WithoutBit(condition), last), v);
        HarmlessHolds(condition, w.clbits);
        HoldsDefined(condition, w.clbits);
        RelocatedBody(condition, last);
    }
  }

  lemma RelocatedBody(condition: Condition, body: Simple)
    ensures BodyOf(Conditional(WithoutBit(condition), body)) == body
  {
  }

  lemma {:induction false} SwapsDrawNothing(path: seq<nat>)
    ensures DrawsNothing(SwapsAlong(path))
    decreases |path|
  {
    if |path| > 2 { SwapsDrawNothing(path[1..]); }
  }

  lemma RoutedDrawsNothing(operation: Operation, layout: Layout, path: seq<nat>)
    requires Routable(BodyOf(operation), |layout|) && !IsDrawn(BodyOf(operation))
    ensures DrawsNothing(RouteOperation(operation, layout, path).operations)
  {
    SwapsDrawNothing(path);
  }

  lemma UndrawnRuns(trig: Trig, sqrt: real -> real, random: nat -> real, n: nat, operation: Operation, w: World)
    requires IsSquareRoot(sqrt) && !IsDrawn(BodyOf(operation))
    ensures RunOperation(trig, sqrt, random, n, operation, w) == Step(trig, NoOutcome, operation, w)
  {
    hide IsSquareRoot, OperatorOf, After, Holds;
  }

  lemma SameWorlds(layout: Layout, n: nat, w: World, v: World)
    requires Follows(layout, n, w, v)
    ensures Injective(layout) && SameBranch(layout, w, v)
  {
  }

  /** One operation of the source and what it is routed to, run with the same random numbers. */
  lemma OperationRunsAlike(
    trig: Trig, sqrt: real -> real, random: nat -> real, layout: Layout, n: nat, operation: Operation, path: seq<nat>,
    w: World, v: World)
    requires IsSquareRoot(sqrt) && Routable(BodyOf(operation), |layout|) && Follows(layout, n, w, v)
    requires IsTransparent(trig, operation, path) && (IsTwoQubitGate(BodyOf(operation)) ==> SimplePath(path))
    ensures var first := RouteOperation(operation, layout, path);
      EndAlike(first.layout, RunOperation(trig, sqrt, random, |layout|, operation, w),
               Trajectory(trig, sqrt, random, n, first.operations, v))
  {
    hide IsSquareRoot, Follows, IsTransparent, RunOperation, RouteOperation, Trajectory, EndAlike, Routable,
         SimplePath, IsTwoQubitGate;
    if IsDrawn(BodyOf(operation)) {
      DrawingRunsAlike(trig, sqrt, random, layout, n, operation, path, w, v);
    } else {
      SameWorlds(layout, n, w, v);
      OperationCarried(trig, NoOutcome, operation, layout, path, w, v);
      UndrawnRuns(trig, sqrt, random, |layout|, operation, w);
      RoutedDrawsNothing(operation, layout, path);
      NothingDrawn(trig, sqrt, random, NoOutcome, n, RouteOperation(operation, layout, path).operations, v);
    }
  }

  // ---------------------------------------------------------------- the layout stays on the device

  lemma SwapInRange(a: nat, b: nat, n: nat, clbits: nat)
    requires OperationInRange(SwapOn(a, b), n, clbits)
    ensures a < n && b < n
  {
    var qs := BodyOf(SwapOn(a, b)).gate.qubits;
    assert qs[0] == a && qs[1] == b;
  }

  lemma SwapFits(layout: Layout, a: nat, b: nat, n: nat)
    requires a < n && b < n
    ensures Fits(SwapLayout(layout, a, b), n) <==> Fits(layout, n)
  {
    if Fits(SwapLayout(layout, a, b), n) {
      forall l | 0 <= l < |layout| ensures layout[l] < n { assert SwapLayout(layout, a, b)[l] < n; }
    }
  }

  /** Along SWAPs between qubits of the device a layout fits on it throughout or not at all. */
  lemma {:induction false} WalkFits(layout: Layout, path: seq<nat>, n: nat, clbits: nat)
    requires AllInRange(SwapsAlong(path), n, clbits)
    ensures Fits(Walk(layout, path), n) <==> Fits(layout, n)
    decreases |path|
  {
    hide Fits;
    if |path| > 2 {
      var swaps := SwapsAlong(path);
      assert OperationInRange(swaps[0], n, clbits);
      SwapInRange(path[0], path[1], n, clbits);
      SwapFits(layout, path[0], path[1], n);
      forall k | 0 <= k < |SwapsAlong(path[1..])| ensures OperationInRange(SwapsAlong(path[1..])[k], n, clbits) {
        assert swaps[k + 1] == SwapsAlong(path[1..])[k] && OperationInRange(swaps[k + 1], n, clbits);
      }
      WalkFits(SwapLayout(layout, path[0], path[1]), path[1..], n, clbits);
    }
  }

  lemma RoutedFits(operation: Operation, layout: Layout, path: seq<nat>, n: nat, clbits: nat)
    requires Routable(BodyOf(operation), |layout|)
    requires AllInRange(RouteOperation(operation, layout, path).operations, n, clbits)
    ensures Fits(RouteOperation(operation, layout, path).layout, n) <==> Fits(layout, n)
  {
    hide Fits, InRange, RelocateSimple;
    if IsTwoQubitGate(BodyOf(operation)) {
      var swaps, emitted := SwapsAlong(path), RouteOperation(operation, layout, path).operations;
      forall k | 0 <= k < |swaps| ensures OperationInRange(swaps[k], n, clbits) {
        SwapsAreGates(path, k);
        assert OperationInRange(emitted[k], n, clbits) && BodyOf(emitted[k]) == BodyOf(swaps[k]);
      }
      WalkFits(layout, path, n, clbits);
    }
  }

  lemma {:induction false} RouteFits(
    operations: seq<Operation>, layout: Layout, paths: seq<seq<nat>>, n: nat, clbits: nat)
    requires AllRoutable(operations, |layout|) && |paths| == |operations|
    requires AllInRange(RouteAll(operations, layout, paths).operations, n, clbits)
    ensures Fits(RouteAll(operations, layout, paths).layout, n) <==> Fits(layout, n)
    decreases |operations|
  {
    hide Fits, OperationInRange, RouteOperation, Routable;
    if |operations| > 0 {
      var first := RouteOperation(operations[0], layout, paths[0]);
      var rest := RouteAll(operations[1..], first.layout, paths[1..]);
      RangeSplits(first.operations, rest.operations, n, clbits);
      RoutedFits(operations[0], layout, paths[0], n, clbits);
      RouteFits(operations[1..], first.layout, paths[1..], n, clbits);
    }
  }

  lemma RangeSplits(first: seq<Operation>, second: seq<Operation>, n: nat, clbits: nat)
    requires AllInRange(first + second, n, clbits)
    ensures AllInRange(first, n, clbits) && AllInRange(second, n, clbits)
  {
    hide OperationInRange;
    var all := first + second;
    forall k | 0 <= k < |first| ensures OperationInRange(first[k], n, clbits) { assert all[k] == first[k]; }
    forall k | 0 <= k < |second| ensures OperationInRange(second[k], n, clbits) {
      assert all[|first| + k] == second[k];
    }
  }

  // ---------------------------------------------------------------- whole runs

  lemma {:induction false} TrajectoryConcat(
    trig: Trig, sqrt: real -> real, random: nat -> real, n: nat, first: seq<Operation>, second: seq<Operation>,
    v: World)
    requires IsSquareRoot(sqrt)
    ensures var middle := Trajectory(trig, sqrt, random, n, first, v);
      Trajectory(trig, sqrt, random, n, first + second, v)
        == if middle.None? then None else Trajectory(trig, sqrt, random, n, second, middle.value)
    decreases |first|
  {
    hide RunOperation, IsSquareRoot;
    if |first| > 0 {
      assert (first + second)[1..] == first[1..] + second;
      var next := RunOperation(trig, sqrt, random, n, first[0], v);
      if next.Some? { TrajectoryConcat(trig, sqrt, random, n, first[1..], second, next.value); }
    } else {
      assert first + second == second;
    }
  }

  /**
   * Run with the same random numbers, a routed circuit is refused exactly when its source is, and otherwise ends with
   * the same classical bits and the source's amplitudes carried through the final layout.
   */
  lemma {:induction false} RoutedRunsAlike(
    trig: Trig, sqrt: real -> real, random: nat -> real, n: nat, clbits: nat, operations: seq<Operation>,
    layout: Layout,
    paths: seq<seq<nat>>, w: World, v: World)
    requires IsSquareRoot(sqrt) && AllRoutable(operations, |layout|) && |paths| == |operations|
    requires SimplePaths(operations, paths) && AllTransparent(trig, operations, paths) && Follows(layout, n, w, v)
    requires AllInRange(RouteAll(operations, layout, paths).operations, n, clbits)
    ensures var routed := RouteAll(operations, layout, paths);
      EndAlike(routed.layout, Trajectory(trig, sqrt, random, |layout|, operations, w),
               Trajectory(trig, sqrt, random, n, routed.operations, v))
    decreases |operations|
  {
    hide IsSquareRoot, Injective, Fits, SameBranch, IsTransparent, RunOperation, RouteOperation, SimplePath,
         IsTwoQubitGate, OperationInRange, Routable;
    if |operations| > 0 {
      var op := operations[0];
      var first := RouteOperation(op, layout, paths[0]);
      var rest := RouteAll(operations[1..], first.layout, paths[1..]);
      TransparentSplit(trig, operations, paths);
      SimpleSplit(operations, paths);
      RangeSplits(first.operations, rest.operations, n, clbits);
      OperationRunsAlike(trig, sqrt, random, layout, n, op, paths[0], w, v);
      TrajectoryConcat(trig, sqrt, random, n, first.operations, rest.operations, v);
      var w1 := RunOperation(trig, sqrt, random, |layout|, op, w);
      if w1.Some? {
        RouteFirstInjective(op, layout, paths[0]);
        RoutedFits(op, layout, paths[0], n, clbits);
        var v1 := Trajectory(trig, sqrt, random, n, first.operations, v).value;
        RoutedRunsAlike(trig, sqrt, random, n, clbits, operations[1..], first.layout, paths[1..], w1.value, v1);
      }
    }
  }
}
