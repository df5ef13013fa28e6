/**
 * Undoing the routing permutation on amplitudes (src/engine/routing-verification.ts:52-75, 155-178), and the proof
 * that the comparison it prepares succeeds at every width for a correctly routed circuit.
 */
module RoutingVerification {
  import opened Bits
  import opened ComplexNumbers
  import opened Options
  import opened Circuits
  import opened Conditionals
  import opened RoutingSpec
  import opened RoutingSemantics
  import CouplingGraph
  import Router
  import S = Semantics
  import V = Statevector

  /** A layout that places n logical positions on n physical qubits. */
  predicate Permutation(layout: Layout, n: nat) {
    |layout| == n && Injective(layout) && forall l :: 0 <= l < n ==> layout[l] < n
  }

  /** Bit l of the logical index is bit layout[l] of the routed index. */
  function LogicalIndex(layout: Layout, n: nat, routed: nat): nat {
    Index(n, Pull(layout, Ones(n, routed)))
  }

  // ---------------------------------------------------------------- completing a layout

  function Complete(layout: Layout, n: nat): Layout {
    if n == 0 then layout
    else
      var shorter := Complete(layout, n - 1);
      if n - 1 in layout then shorter else shorter + [n - 1]
  }

  /** The final layout followed by the unused physical qubits in ascending order. */
  method CompleteLayout(finalLayout: Layout, width: nat) returns (layout: Layout)
    ensures layout == Complete(finalLayout, width)
  {
    layout := finalLayout;
    for physical := 0 to width
      invariant layout == Complete(finalLayout, physical)
    {
      if physical !in finalLayout {
        layout := layout + [physical];
      }
    }
  }

  lemma {:induction false} CompleteMembers(layout: Layout, n: nat)
    requires Injective(layout)
    ensures layout <= Complete(layout, n) && Injective(Complete(layout, n))
    ensures forall p: nat :: p in Complete(layout, n) <==> p in layout || p < n
  {
    if n > 0 {
      CompleteMembers(layout, n - 1);
      var shorter := Complete(layout, n - 1);
      forall p: nat ensures p in Complete(layout, n) <==> p in layout || p < n {
        assert p in shorter <==> p in layout || p < n - 1;
      }
      if n - 1 !in layout {
        assert n - 1 !in shorter;
      }
    }
  }

  function Below(n: nat): (qubits: set<int>)
    ensures forall x :: x in qubits <==> 0 <= x < n
  {
    if n == 0 then {} else Below(n - 1) + {n - 1}
  }

  lemma {:induction false} BelowSize(n: nat)
    ensures |Below(n)| == n
  {
    if n > 0 {
      BelowSize(n - 1);
    }
  }

  lemma {:induction false} OccupiedSize(layout: Layout)
    requires Injective(layout)
    ensures |Occupied(layout)| == |layout|
  {
    if |layout| > 0 {
      var rest := layout[..|layout| - 1];
      OccupiedSize(rest);
      var last := layout[|layout| - 1];
      forall p ensures p in Occupied(layout) <==> p in Occupied(rest) + {last as int} {
        if p in Occupied(layout) {
          var l: nat :| l < |layout| && layout[l] as int == p;
          if l < |rest| { assert rest[l] as int == p; }
        }
        if p in Occupied(rest) {
          var l: nat :| l < |rest| && rest[l] as int == p;
          assert layout[l] as int == p;
        }
        if p == last { assert layout[|layout| - 1] as int == p; }
      }
      assert Occupied(layout) == Occupied(rest) + {last as int};
      assert last as int !in Occupied(rest);
    } else {
      assert Occupied(layout) == {};
    }
  }

  /** A completed layout occupies every physical qubit, each once. */
  lemma CompleteIsPermutation(layout: Layout, n: nat)
    requires Injective(layout) && forall l :: 0 <= l < |layout| ==> layout[l] < n
    ensures Permutation(Complete(layout, n), n)
  {
    CompleteMembers(layout, n);
    var full := Complete(layout, n);
    forall p: int ensures p in Occupied(full) <==> p in Below(n) {
      if p in Occupied(full) {
        var l: nat :| l < |full| && full[l] as int == p;
        assert full[l] in full;
      }
      if p in Below(n) {
        var q: nat := p;
        assert q in full;
        var l :| 0 <= l < |full| && full[l] == q;
        assert full[l] as int == p;
      }
    }
    assert Occupied(full) == Below(n);
    OccupiedSize(full);
    BelowSize(n);
    forall l | 0 <= l < |full| ensures full[l] < n {
      assert full[l] in full;
    }
  }

  lemma PermutationOccupies(layout: Layout, n: nat)
    requires Permutation(layout, n)
    ensures Occupied(layout) == Below(n)
  {
    OccupiedSize(layout);
    BelowSize(n);
    assert Occupied(layout) <= Below(n);
    var missing := Below(n) - Occupied(layout);
    assert Below(n) == Occupied(layout) + missing;
  }

  /** Different routed indices go to different logical indices. */
  lemma LogicalIndexInjective(layout: Layout, n: nat, j: nat, k: nat)
    requires Permutation(layout, n) && j < Pow2(n) && k < Pow2(n)
    requires LogicalIndex(layout, n, j) == LogicalIndex(layout, n, k)
    ensures j == k
  {
    hide Injective;
    PermutationOccupies(layout, n);
    OnesOfIndex(n, Pull(layout, Ones(n, j)));
    OnesOfIndex(n, Pull(layout, Ones(n, k)));
    assert Pull(layout, Ones(n, j)) == Pull(layout, Ones(n, k));
    forall p ensures p in Ones(n, j) <==> p in Ones(n, k) {
      if p in Below(n) {
        assert p in Occupied(layout);
        var l: nat :| l < |layout| && layout[l] as int == p;
        PullMember(layout, Ones(n, j), l);
        PullMember(layout, Ones(n, k), l);
      }
    }
    assert Ones(n, j) == Ones(n, k);
    IndexOfBits(n, j);
    IndexOfBits(n, k);
  }

  /** Every logical index is hit: pull a set back through the permutation. */
  lemma LogicalIndexOnto(layout: Layout, n: nat, j: nat) returns (k: nat)
    requires Permutation(layout, n) && j < Pow2(n)
    ensures k < Pow2(n) && LogicalIndex(layout, n, k) == j
  {
    var ones := set l: nat | l < |layout| && l in Ones(n, j) :: layout[l] as int;
    k := Index(n, ones);
    OnesOfIndex(n, ones);
    forall l: nat | l < |layout| ensures layout[l] as int in ones <==> l in Ones(n, j) {
      if layout[l] as int in ones {
        var m: nat :| m < |layout| && m in Ones(n, j) && layout[m] as int == layout[l];
        assert m == l;
      }
    }
    assert Pull(layout, ones) == Ones(n, j);
    IndexOfBits(n, j);
  }

  // ---------------------------------------------------------------- the un-permutation loop

  /** The bits of the logical index, gathered position by position. */
  method GatherBits(layout: Layout, n: nat, routed: nat) returns (logical: nat)
    requires routed < Pow2(n) && |layout| <= n
    ensures logical == LogicalIndex(layout, n, routed)
  {
    hide Injective;
    logical := 0;
    ghost var ones := Pull(layout, Ones(n, routed));
    for l := 0 to |layout|
      invariant logical == Index(l, ones)
    {
      PullMember(layout, Ones(n, routed), l);
      BitBelow(n, routed, layout[l]);
      if BitAt(routed, layout[l]) {
        logical := logical + Pow2(l);
      }
    }
    IndexOfLow(|layout|, n, ones);
  }

  lemma BitBelow(n: nat, k: nat, i: nat)
    requires k < Pow2(n)
    ensures i in Ones(n, k) <==> BitAt(k, i)
  {
    if i >= n { BitClear(n, k, i); }
  }

  /** What a position holds after the first routed indices: the last amplitude sent there. */
  function LastAmplitude(amplitudes: seq<real>, layout: Layout, n: nat, count: nat, j: nat): real
    requires count <= |amplitudes|
  {
    if count == 0 then 0.0
    else if LogicalIndex(layout, n, count - 1) == j then amplitudes[count - 1]
    else LastAmplitude(amplitudes, layout, n, count - 1, j)
  }

  datatype Amplitudes = Amplitudes(re: array<real>, im: array<real>)

  /** Moves every amplitude to its logical index; refused when their number does not fit the qubits. */
  method UnpermuteAmplitudes(re: seq<real>, im: seq<real>, layout: Layout, n: nat)
    returns (result: Option<Amplitudes>)
    requires |layout| <= n && |re| == |im|
    ensures result.Some? <==> |re| == Pow2(n)
    ensures result.Some? ==> result.value.re.Length == result.value.im.Length == Pow2(n)
    ensures result.Some? ==> forall j: nat :: j < Pow2(n) ==>
      && result.value.re[j] == LastAmplitude(re, layout, n, Pow2(n), j)
      && result.value.im[j] == LastAmplitude(im, layout, n, Pow2(n), j)
  {
    hide LogicalIndex, Pow2;
    if |re| != Pow2(n) {
      return None;
    }
    var real_, imaginary := new real[Pow2(n)](_ => 0.0), new real[Pow2(n)](_ => 0.0);
    LogicalIndexBelow(layout, n);
    for routed := 0 to Pow2(n)
      invariant forall j: nat :: j < Pow2(n) ==>
        real_[j] == LastAmplitude(re, layout, n, routed, j) && imaginary[j] == LastAmplitude(im, layout, n, routed, j)
    {
      var logical := GatherBits(layout, n, routed);
      real_[logical] := re[routed];
      imaginary[logical] := im[routed];
    }
    result := Some(Amplitudes(real_, imaginary));
  }

  lemma LogicalIndexBelow(layout: Layout, n: nat)
    ensures forall k: nat :: LogicalIndex(layout, n, k) < Pow2(n)
  {
  }

  /** Through a permutation no amplitude is overwritten. */
  lemma {:induction false} PermutationMovesEach(amplitudes: seq<real>, layout: Layout, n: nat, count: nat, k: nat)
    requires Permutation(layout, n) && k < count <= Pow2(n) && |amplitudes| == Pow2(n)
    ensures LastAmplitude(amplitudes, layout, n, count, LogicalIndex(layout, n, k)) == amplitudes[k]
    decreases count
  {
    hide Permutation, LogicalIndex, Pow2;
    if k < count - 1 {
      if LogicalIndex(layout, n, count - 1) == LogicalIndex(layout, n, k) {
        LogicalIndexInjective(layout, n, count - 1, k);
      }
      PermutationMovesEach(amplitudes, layout, n, count - 1, k);
    }
  }

  /** An index holds the last amplitude sent to it. */
  lemma {:induction false} LastOneStays(amplitudes: seq<real>, layout: Layout, n: nat, count: nat, k: nat)
    requires k < count <= |amplitudes|
    requires forall later :: k < later < count ==> LogicalIndex(layout, n, later) != LogicalIndex(layout, n, k)
    ensures LastAmplitude(amplitudes, layout, n, count, LogicalIndex(layout, n, k)) == amplitudes[k]
    decreases count
  {
    hide LogicalIndex;
    if k < count - 1 { LastOneStays(amplitudes, layout, n, count - 1, k); }
  }

  /** An index that none is sent to stays at zero. */
  lemma {:induction false} UnreachedIsZero(amplitudes: seq<real>, layout: Layout, n: nat, count: nat, j: nat)
    requires count <= |amplitudes| && forall k :: 0 <= k < count ==> LogicalIndex(layout, n, k) != j
    ensures LastAmplitude(amplitudes, layout, n, count, j) == 0.0
    decreases count
  {
    hide LogicalIndex;
    if count > 0 { UnreachedIsZero(amplitudes, layout, n, count - 1, j); }
  }

  // ---------------------------------------------------------------- the comparison succeeds

  /** The source amplitude at an index, padded with zeros above the source's own width. */
  ghost function Padded(psi: S.State, width: nat, j: nat): Complex {
    if j < Pow2(width) then psi(Ones(width, j)) else ZERO
  }

  lemma {:induction false} LowIndex(width: nat, n: nat, j: nat)
    requires width <= n && j < Pow2(n)
    ensures j < Pow2(width) <==> Ones(n, j) <= Below(width)
    ensures j < Pow2(width) ==> Ones(width, j) == Ones(n, j)
  {
    if j < Pow2(width) {
      forall i: nat | width <= i ensures !BitAt(j, i) { BitClear(width, j, i); }
      assert Ones(width, j) == Ones(n, j);
    }
    if Ones(n, j) <= Below(width) {
      IndexOfBits(n, j);
      IndexOfLow(width, n, Ones(n, j));
    }
  }

  lemma {:induction false} IndexOfLow(width: nat, n: nat, ones: set<int>)
    requires width <= n && ones <= Below(width)
    ensures Index(n, ones) == Index(width, ones)
    decreases n
  {
    if width < n {
      IndexOfLow(width, n - 1, ones);
    }
  }

  /** What UnpermuteAmplitudes returns. */
  predicate Unpermuted(re: seq<real>, im: seq<real>, outRe: seq<real>, outIm: seq<real>, layout: Layout, n: nat) {
    && |re| == |im| == |outRe| == |outIm| == Pow2(n)
    && forall j: nat :: j < Pow2(n) ==>
         && outRe[j] == LastAmplitude(re, layout, n, Pow2(n), j)
         && outIm[j] == LastAmplitude(im, layout, n, Pow2(n), j)
  }

  /**
   * The verdict of verifyRouting at every width: when the routed arrays hold a state that carries the source state
   * through the final layout, un-permuting them by the completed layout gives the padded source amplitudes exactly.
   */
  lemma UnpermutedEqualsSource(
    finalLayout: Layout, n: nat, source: S.State, routed: S.State,
    re: seq<real>, im: seq<real>, outRe: seq<real>, outIm: seq<real>)
    requires Injective(finalLayout) && forall l :: 0 <= l < |finalLayout| ==> finalLayout[l] < n
    requires Carries(finalLayout, source, routed) && V.Stores(n, re, im, routed)
    requires Unpermuted(re, im, outRe, outIm, Complete(finalLayout, n), n)
    ensures forall j: nat :: j < Pow2(n) ==> Complex(outRe[j], outIm[j]) == Padded(source, |finalLayout|, j)
  {
    hide Injective, Pow2;
    var full := Complete(finalLayout, n);
    CompleteIsPermutation(finalLayout, n);
    CompleteMembers(finalLayout, n);
    assert |finalLayout| <= n;
    forall j: nat | j < Pow2(n) ensures Complex(outRe[j], outIm[j]) == Padded(source, |finalLayout|, j) {
      var k := LogicalIndexOnto(full, n, j);
      PermutationMovesEach(re, full, n, Pow2(n), k);
      PermutationMovesEach(im, full, n, Pow2(n), k);
      PulledIndex(finalLayout, n, k, j);
      LowIndex(|finalLayout|, n, j);
      assert Complex(re[k], im[k]) == routed(Ones(n, k));
    }
  }

  /** The low part of a logical index is the routed index pulled through the final layout alone. */
  lemma PulledIndex(finalLayout: Layout, n: nat, k: nat, j: nat)
    requires Injective(finalLayout) && forall l :: 0 <= l < |finalLayout| ==> finalLayout[l] < n
    requires Permutation(Complete(finalLayout, n), n) && finalLayout <= Complete(finalLayout, n)
    requires k < Pow2(n) && j == LogicalIndex(Complete(finalLayout, n), n, k)
    ensures Ones(n, j) == Pull(Complete(finalLayout, n), Ones(n, k))
    ensures Ones(n, k) <= Occupied(finalLayout) <==> Ones(n, j) <= Below(|finalLayout|)
    ensures Ones(n, k) <= Occupied(finalLayout) ==> Pull(finalLayout, Ones(n, k)) == Ones(n, j)
  {
    hide Pow2;
    var full, m := Complete(finalLayout, n), |finalLayout|;
    OnesOfIndex(n, Pull(full, Ones(n, k)));
    forall l: nat | l < m ensures full[l] == finalLayout[l] {
    }
    PermutationOccupies(full, n);
    if Ones(n, k) <= Occupied(finalLayout) {
      forall l | l in Ones(n, j) ensures l in Below(m) {
        assert full[l] as int in Ones(n, k);
        var i: nat :| i < m && finalLayout[i] as int == full[l];
        assert full[i] == full[l];
      }
      assert Pull(finalLayout, Ones(n, k)) == Ones(n, j);
    }
    if Ones(n, j) <= Below(m) {
      forall p | p in Ones(n, k) ensures p in Occupied(finalLayout) {
        assert p in Below(n);
        var l: nat :| l < |full| && full[l] as int == p;
        assert l in Pull(full, Ones(n, k));
        assert finalLayout[l] as int == p;
      }
    }
  }

  // ---------------------------------------------------------------- without measurements

  predicate IsCollapse(operation: Operation) {
    operation.Plain? && (operation.simple.Measure? || operation.simple.Reset?)
  }

  /** Drops unconditional measurements and resets. */
  function StripMeasurements(operations: seq<Operation>): seq<Operation>
    decreases |operations|
  {
    if |operations| == 0 then []
    else (if IsCollapse(operations[0]) then [] else [operations[0]]) + StripMeasurements(operations[1..])
  }

  /** The paths that belong to what is kept. */
  function StripPaths(operations: seq<Operation>, paths: seq<seq<nat>>): (kept: seq<seq<nat>>)
    requires |paths| == |operations|
    ensures |kept| == |StripMeasurements(operations)|
    decreases |operations|
  {
    if |operations| == 0 then []
    else (if IsCollapse(operations[0]) then [] else [paths[0]]) + StripPaths(operations[1..], paths[1..])
  }

  lemma {:induction false} StripKeepsAll(operations: seq<Operation>)
    requires forall k :: 0 <= k < |operations| ==> !IsCollapse(operations[k])
    ensures StripMeasurements(operations) == operations
    decreases |operations|
  {
    hide IsCollapse;
    if |operations| > 0 { StripKeepsAll(operations[1..]); }
  }

  lemma {:induction false} StripConcat(first: seq<Operation>, second: seq<Operation>)
    ensures StripMeasurements(first + second) == StripMeasurements(first) + StripMeasurements(second)
    decreases |first|
  {
    hide IsCollapse;
    if |first| == 0 {
      assert first + second == second;
    } else {
      assert (first + second)[1..] == first[1..] + second;
      StripConcat(first[1..], second);
    }
  }

  /** What routing emits for an operation that is kept is kept, and a dropped operation emits one that is dropped. */
  lemma StripRouted(operation: Operation, layout: Layout, path: seq<nat>)
    requires Routable(BodyOf(operation), |layout|)
    ensures var routed := RouteOperation(operation, layout, path);
      if IsCollapse(operation) then StripMeasurements(routed.operations) == [] && routed.layout == layout
      else StripMeasurements(routed.operations) == routed.operations
  {
    var routed := RouteOperation(operation, layout, path);
    if IsCollapse(operation) {
      assert routed.operations == [Plain(RelocateSimple(operation.simple, layout))];
    } else {
      NoSwapCollapses(path);
      StripKeepsAll(routed.operations);
    }
  }

  lemma {:induction false} NoSwapCollapses(path: seq<nat>)
    ensures forall k :: 0 <= k < |SwapsAlong(path)| ==> !IsCollapse(SwapsAlong(path)[k])
    decreases |path|
  {
    if |path| > 2 { NoSwapCollapses(path[1..]); }
  }

  lemma {:induction false} KeptTransparent(trig: S.Trig, operations: seq<Operation>, paths: seq<seq<nat>>)
    requires |paths| == |operations| && AllTransparent(trig, operations, paths)
    ensures AllTransparent(trig, StripMeasurements(operations), StripPaths(operations, paths))
    decreases |operations|
  {
    hide IsTransparent, IsCollapse;
    if |operations| > 0 {
      TransparentSplit(trig, operations, paths);
      KeptTransparent(trig, operations[1..], paths[1..]);
    }
  }

  lemma {:induction false} KeptSimple(operations: seq<Operation>, paths: seq<seq<nat>>)
    requires |paths| == |operations| && SimplePaths(operations, paths)
    ensures SimplePaths(StripMeasurements(operations), StripPaths(operations, paths))
    decreases |operations|
  {
    hide SimplePath, IsCollapse, IsTwoQubitGate;
    if |operations| > 0 {
      SimpleSplit(operations, paths);
      KeptSimple(operations[1..], paths[1..]);
    }
  }

  lemma {:induction false} KeptRoutable(operations: seq<Operation>, width: nat)
    requires AllRoutable(operations, width)
    ensures AllRoutable(StripMeasurements(operations), width)
    decreases |operations|
  {
    hide Routable, IsCollapse;
    if |operations| > 0 { KeptRoutable(operations[1..], width); }
  }

  /** Stripping commutes with routing. */
  lemma {:induction false} StrippingRoutes(operations: seq<Operation>, layout: Layout, paths: seq<seq<nat>>)
    requires AllRoutable(operations, |layout|) && |paths| == |operations|
    ensures AllRoutable(StripMeasurements(operations), |layout|)
    ensures var routed := RouteAll(operations, layout, paths);
      RouteAll(StripMeasurements(operations), layout, StripPaths(operations, paths))
        == Routed(StripMeasurements(routed.operations), routed.layout)
    decreases |operations|
  {
    hide Routable, IsCollapse, RouteOperation;
    KeptRoutable(operations, |layout|);
    if |operations| > 0 {
      var first := RouteOperation(operations[0], layout, paths[0]);
      var rest := RouteAll(operations[1..], first.layout, paths[1..]);
      StripRouted(operations[0], layout, paths[0]);
      StripConcat(first.operations, rest.operations);
      StrippingRoutes(operations[1..], first.layout, paths[1..]);
      var kept, keptPaths := StripMeasurements(operations[1..]), StripPaths(operations[1..], paths[1..]);
      if !IsCollapse(operations[0]) {
        var all, allPaths := StripMeasurements(operations), StripPaths(operations, paths);
        assert all == [operations[0]] + kept && all[1..] == kept && allPaths[1..] == keptPaths
          && allPaths[0] == paths[0];
        assert RouteAll(all, layout, allPaths).operations
          == first.operations + RouteAll(kept, first.layout, keptPaths).operations;
      } else {
        assert StripMeasurements(operations) == kept && StripPaths(operations, paths) == keptPaths;
        assert StripMeasurements(first.operations + rest.operations) == StripMeasurements(rest.operations);
      }
    }
  }

  /**
   * Transpile, strip measurements and resets from both circuits, simulate both, un-permute, compare: for every
   * transpilation of a circuit whose conditionals lose nothing, whatever its width, the device can run the result, and
   * the un-permuted amplitudes of the routed circuit are the padded amplitudes of the source.
   */
  lemma RoutingVerifies(
    adjacency: CouplingGraph.Adjacency, operations: seq<Operation>, paths: seq<seq<nat>>, width: nat,
    t: Router.Transpiled, trig: S.Trig, outcome: nat -> bool, n: nat,
    re: seq<real>, im: seq<real>, outRe: seq<real>, outIm: seq<real>)
    requires Router.Reports(adjacency, operations, paths, width, t) && AllTransparent(trig, operations, paths)
    requires forall l :: 0 <= l < |t.finalLayout| ==> t.finalLayout[l] < n
    requires var v := S.Run(trig, outcome, StripMeasurements(t.operations), S.InitialWorld());
      v.Some? && V.Stores(n, re, im, v.value.state)
    requires Unpermuted(re, im, outRe, outIm, Complete(t.finalLayout, n), n)
    ensures AllLegal(adjacency, t.operations)
    ensures var w := S.Run(trig, outcome, StripMeasurements(operations), S.InitialWorld());
      w.Some? && forall j: nat :: j < Pow2(n) ==> Complex(outRe[j], outIm[j]) == Padded(w.value.state, width, j)
  {
    hide AllTransparent, S.Run, V.Stores, Carries, Injective, Padded, Unpermuted, Complete, SimplePaths, AllLegal;
    var kept, keptPaths := StripMeasurements(operations), StripPaths(operations, paths);
    Router.TranspiledIsCorrect(adjacency, operations, paths, width, t, trig, outcome);
    Router.FittingPathsSimple(adjacency, operations, t.initialLayout, paths);
    StrippingRoutes(operations, t.initialLayout, paths);
    KeptTransparent(trig, operations, paths);
    KeptSimple(operations, paths);
    InitialCarried(t.initialLayout);
    RoutingPreserves(trig, outcome, kept, t.initialLayout, keptPaths, S.InitialWorld(), S.InitialWorld());
    var w := S.Run(trig, outcome, kept, S.InitialWorld()).value;
    var v := S.Run(trig, outcome, StripMeasurements(t.operations), S.InitialWorld()).value;
    UnpermutedEqualsSource(t.finalLayout, n, w.state, v.state, re, im, outRe, outIm);
  }
}
