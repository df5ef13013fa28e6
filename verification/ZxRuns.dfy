/** Whole runs of rewrites: what every step keeps, and what the rewritten graph looks like. */
module ZxRuns {
  import opened ComplexNumbers
  import opened Summation
  import opened ZxDiagram
  import opened ZxRewrite
  import opened ZxSoundness
  import opened ZxPivotSoundness

  // ---------------------------------------------------------------- the rewritten adjacency

  lemma {:induction false} RowAdjacency(edges: seq<Edge>, a: int, others: seq<int>, x: int, y: int)
    requires Distinct(others) && a !in others
    ensures HasEdge(ToggleRow(edges, a, others), x, y)
       <==> HasEdge(edges, x, y) != ((x == a && y in others) || (y == a && x in others))
    decreases |others|
  {
    hide Toggle, HasEdge;
    if |others| > 0 {
      assert others == [others[0]] + others[1..];
      ToggleAdjacency(edges, a, others[0], x, y);
      RowAdjacency(Toggle(edges, a, others[0]), a, others[1..], x, y);
      assert others[0] !in others[1..];
    }
  }

  lemma {:induction false} ComplementAdjacency(edges: seq<Edge>, vs: seq<int>, x: int, y: int)
    requires Distinct(vs)
    ensures HasEdge(ComplementAmong(edges, vs), x, y) <==> HasEdge(edges, x, y) != (x != y && x in vs && y in vs)
    decreases |vs|
  {
    hide ToggleRow, HasEdge;
    if |vs| > 0 {
      assert vs == [vs[0]] + vs[1..];
      assert vs[0] !in vs[1..];
      RowAdjacency(edges, vs[0], vs[1..], x, y);
      ComplementAdjacency(ToggleRow(edges, vs[0], vs[1..]), vs[1..], x, y);
    }
  }

  lemma {:induction false} BetweenAdjacency(edges: seq<Edge>, left: seq<int>, right: seq<int>, x: int, y: int)
    requires Distinct(left) && Distinct(right) && ToSet(left) !! ToSet(right)
    ensures HasEdge(ToggleBetween(edges, left, right), x, y)
       <==> HasEdge(edges, x, y) != ((x in left && y in right) || (y in left && x in right))
    decreases |left|
  {
    hide ToggleRow, HasEdge;
    if |left| > 0 {
      assert left == [left[0]] + left[1..];
      assert left[0] !in left[1..];
      assert forall z :: z in right ==> z in ToSet(right);
      assert forall z :: z in left ==> z in ToSet(left);
      assert ToSet(left[1..]) <= ToSet(left);
      RowAdjacency(edges, left[0], right, x, y);
      BetweenAdjacency(ToggleRow(edges, left[0], right), left[1..], right, x, y);
    }
  }

  /**
   * Local complementation, as graph theory states it: away from the removed vertex, adjacency is flipped exactly
   * between two distinct neighbours of it.
   */
  lemma ComplementedAdjacency(d: Diagram, id: int, x: int, y: int)
    requires Simple(d) && ComplementApplies(d, id)
    ensures HasEdge(Complemented(d, id).edges, x, y)
       <==> (x != id && y != id
             && HasEdge(d.edges, x, y) != (x != y && HasEdge(d.edges, id, x) && HasEdge(d.edges, id, y)))
  {
    hide HasEdge, Neighbours, ComplementAmong, ShiftPhases, RemoveSpider;
    var ns := Neighbours(d.edges, id);
    NeighboursExact(d.edges, id);
    ComplementAdjacency(d.edges, ns, x, y);
    FilterAdjacency(ComplementAmong(d.edges, ns), (e: Edge) => e.0 != id && e.1 != id, x, y);
  }

  /** The kind of neighbour x is of the pivoted pair: 1 for u only, 2 for v only, 3 for both, 0 for neither. */
  function PivotClass(edges: seq<Edge>, u: int, v: int, x: int): int {
    (if HasEdge(edges, u, x) then 1 else 0) + (if HasEdge(edges, v, x) then 2 else 0)
  }

  /** Pivoting flips adjacency exactly between neighbours of different kinds, away from the removed pair. */
  lemma PivotedAdjacency(d: Diagram, u: int, v: int, x: int, y: int)
    requires Simple(d) && PivotApplies(d, u, v)
    ensures HasEdge(Pivoted(d, u, v).edges, x, y)
       <==> (x != u && x != v && y != u && y != v
             && HasEdge(d.edges, x, y)
                != (PivotClass(d.edges, u, v, x) != 0 && PivotClass(d.edges, u, v, y) != 0
                    && PivotClass(d.edges, u, v, x) != PivotClass(d.edges, u, v, y)))
  {
    hide HasEdge, GroupsOf, ToggleBetween, ShiftGroups, RemoveSpider, PhaseOf;
    var g := GroupsOf(d.edges, u, v);
    GroupsWithin(d, u, v);
    GroupMembers(d, u, v, x);
    GroupMembers(d, u, v, y);
    var e1 := ToggleBetween(d.edges, g.onlyU, g.onlyV);
    var e2 := ToggleBetween(e1, g.onlyU, g.shared);
    BetweenAdjacency(d.edges, g.onlyU, g.onlyV, x, y);
    BetweenAdjacency(e1, g.onlyU, g.shared, x, y);
    BetweenAdjacency(e2, g.onlyV, g.shared, x, y);
    var e3 := ToggleBetween(e2, g.onlyV, g.shared);
    FilterAdjacency(e3, (e: Edge) => e.0 != u && e.1 != u, x, y);
    FilterAdjacency(RemoveVertex(e3, u), (e: Edge) => e.0 != v && e.1 != v, x, y);
  }

  lemma GroupMembers(d: Diagram, u: int, v: int, x: int)
    requires Simple(d)
    ensures var g, c := GroupsOf(d.edges, u, v), PivotClass(d.edges, u, v, x);
      && Distinct(g.onlyU) && Distinct(g.onlyV) && Distinct(g.shared)
      && (x != u && x != v ==>
            (x in g.onlyU <==> c == 1) && (x in g.onlyV <==> c == 2) && (x in g.shared <==> c == 3))
  {
    hide HasEdge, Neighbours;
    var nu, nv := Neighbours(d.edges, u), Neighbours(d.edges, v);
    NeighboursExact(d.edges, u);
    NeighboursExact(d.edges, v);
    KeepDropSplit(nu, {v}, {});
    KeepDropSplit(nv, {u}, {});
    var us, vs := Drop(nu, {v}), Drop(nv, {u});
    KeepDropSplit(us, ToSet(vs), {});
    KeepDropSplit(vs, ToSet(us), {});
    assert x in us <==> x in ToSet(us);
    assert x in vs <==> x in ToSet(vs);
  }

  // ---------------------------------------------------------------- what one step keeps

  /** The rewritten diagram is simple, has the same boundary, and has lost exactly the removed spiders. */
  predicate Keeps(d: Diagram, d': Diagram, removed: set<int>) {
    && Simple(d')
    && d'.inputs == d.inputs && d'.outputs == d.outputs
    && ToSet(Ids(d'.spiders)) == ToSet(Ids(d.spiders)) - removed
    && |d'.spiders| + |removed| == |d.spiders|
  }

  lemma WithoutSet(ids: seq<int>, i: nat)
    requires Distinct(ids) && i < |ids|
    ensures ToSet(Without(ids, i)) == ToSet(ids) - {ids[i]}
  {
    forall x | x in ids && x != ids[i] ensures x in Without(ids, i) {
      WithoutOther(ids, i, x);
    }
  }

  lemma RemoveVertexTidy(edges: seq<Edge>, u: int, ids: set<int>)
    requires Tidy(edges, ids)
    ensures Tidy(RemoveVertex(edges, u), ids - {u})
  {
    FilterTidy(edges, (e: Edge) => e.0 != u && e.1 != u, ids);
    var kept := RemoveVertex(edges, u);
    forall i | 0 <= i < |kept| ensures kept[i].0 != u && kept[i].1 != u {
      assert kept[i] in kept;
    }
  }

  lemma KeepsFrom(d: Diagram, d': Diagram, removed: set<int>)
    requires Simple(d) && d'.inputs == d.inputs && d'.outputs == d.outputs
    requires Distinct(Ids(d'.spiders)) && ToSet(Ids(d'.spiders)) == ToSet(Ids(d.spiders)) - removed
    requires |d'.spiders| + |removed| == |d.spiders|
    requires Tidy(d'.edges, ToSet(Ids(d.spiders)) - removed)
    requires forall id :: id in removed ==> IsInterior(d, id)
    ensures Keeps(d, d', removed)
  {
    forall x | x in d.inputs || x in d.outputs ensures x in Ids(d'.spiders) {
      assert x in ToSet(Ids(d.spiders));
      assert x in ToSet(Ids(d'.spiders));
    }
  }

  lemma ComplementKeeps(d: Diagram, id: int)
    requires Simple(d) && ComplementApplies(d, id)
    ensures Keeps(d, Complemented(d, id), {id})
  {
    hide Neighbours, ComplementAmong, ShiftPhases, RemoveSpider, RemoveVertex, PhaseOf, Tidy, Simple, Keeps;
    var ns, ids := Neighbours(d.edges, id), ToSet(Ids(d.spiders));
    var shifted := ShiftPhases(d.spiders, ns, ComplementShift(d, id));
    EdgesOfSimple(d);
    DistinctSpiders(d);
    NeighbourhoodOf(d, id);
    ComplementEffect(d.edges, ns, ids, {});
    RemoveVertexTidy(ComplementAmong(d.edges, ns), id, ids);
    RemoveSpiderById(shifted, id);
    WithoutSet(Ids(d.spiders), IndexOf(Ids(d.spiders), id));
    KeepsFrom(d, Complemented(d, id), {id});
  }

  lemma PivotKeepsEdges(d: Diagram, u: int, v: int)
    requires Simple(d) && PivotApplies(d, u, v)
    ensures Tidy(Pivoted(d, u, v).edges, ToSet(Ids(d.spiders)) - {u, v})
  {
    hide GroupsOf, ToggleBetween, ShiftGroups, RemoveSpider, RemoveVertex, PhaseOf, Tidy, Simple;
    var g, ids := GroupsOf(d.edges, u, v), ToSet(Ids(d.spiders));
    EdgesOfSimple(d);
    GroupsWithin(d, u, v);
    var e1 := ToggleBetween(d.edges, g.onlyU, g.onlyV);
    var e2 := ToggleBetween(e1, g.onlyU, g.shared);
    var e3 := ToggleBetween(e2, g.onlyV, g.shared);
    BetweenEffect(d.edges, g.onlyU, g.onlyV, ids, {});
    BetweenEffect(e1, g.onlyU, g.shared, ids, {});
    BetweenEffect(e2, g.onlyV, g.shared, ids, {});
    RemoveVertexTidy(e3, u, ids);
    RemoveVertexTidy(RemoveVertex(e3, u), v, ids - {u});
    assert ids - {u} - {v} == ids - {u, v};
  }

  lemma PivotKeeps(d: Diagram, u: int, v: int)
    requires Simple(d) && PivotApplies(d, u, v)
    ensures Keeps(d, Pivoted(d, u, v), {u, v})
  {
    hide GroupsOf, ToggleGroups, ShiftGroups, RemoveSpider, RemoveVertex, PhaseOf, Tidy, Simple, Keeps, IndexOf,
         Without;
    var shifted := ShiftGroups(d.spiders, GroupsOf(d.edges, u, v), PhaseOf(d, u), PhaseOf(d, v));
    PivotDistinct(d, u, v);
    PivotKeepsEdges(d, u, v);
    DistinctSpiders(d);
    RemoveBoth(shifted, u, v, {});
    RemoveSpiderById(RemoveSpider(shifted, u), v);
    var i := IndexOf(Ids(d.spiders), u);
    var rest := Without(Ids(d.spiders), i);
    var j := IndexOf(rest, v);
    WithoutSet(Ids(d.spiders), i);
    WithoutSet(rest, j);
    WithoutLength(Ids(d.spiders), i);
    WithoutLength(rest, j);
    assert |{u, v}| == 2;
    KeepsFrom(d, Pivoted(d, u, v), {u, v});
  }

  lemma DistinctSpiders(d: Diagram)
    requires Simple(d)
    ensures Distinct(Ids(d.spiders))
  {
  }

  lemma WithoutLength(ids: seq<int>, i: nat)
    requires i < |ids|
    ensures |Without(ids, i)| == |ids| - 1
  {
  }

  // ---------------------------------------------------------------- runs

  datatype Step = Complement(id: int) | PivotPair(u: int, v: int)

  function Apply(d: Diagram, step: Step): Outcome {
    match step
    case Complement(id) => LocalComplementation(d, id)
    case PivotPair(u, v) => Pivot(d, u, v)
  }

  /** A run: every step applies where it is attempted. */
  predicate IsRun(d: Diagram, steps: seq<Step>, d': Diagram)
    decreases |steps|
  {
    if |steps| == 0 then d' == d
    else Apply(d, steps[0]).applied && IsRun(Apply(d, steps[0]).graph, steps[1..], d')
  }

  /** One step keeps the map up to a nonzero scalar: (1+i), (1-i) or 2(-1)^(ab), times powers of the edge factor. */
  lemma StepKeeps(chi: real -> Complex, r: real, d: Diagram, step: Step)
    requires QuarterTurns(chi) && r != 0.0 && Simple(d) && Apply(d, step).applied
    ensures exists removed: set<int> :: Keeps(d, Apply(d, step).graph, removed) && 1 <= |removed| <= 2
    ensures SameMap(chi, r, d, Apply(d, step).graph)
  {
    hide Complemented, Pivoted, Amplitude, Simple, Mul;
    match step {
      case Complement(id) =>
        ComplementKeeps(d, id);
        var d' := Complemented(d, id);
        assert |{id}| == 1;
        forall ins: seq<bool>, outs: seq<bool> | |ins| == |d.inputs| && |outs| == |d.outputs|
          ensures Amplitude(chi, d, ins, outs) == Mul(ComplementFactor(d, id), Amplitude(chi, d', ins, outs))
        {
          ComplementAmplitude(chi, d, id, ins, outs);
        }
        AmplitudesGiveMap(chi, r, d, ComplementFactor(d, id), d');
      case PivotPair(u, v) =>
        PivotKeeps(d, u, v);
        PivotDistinct(d, u, v);
        var d' := Pivoted(d, u, v);
        assert |{u, v}| == 2;
        forall ins: seq<bool>, outs: seq<bool> | |ins| == |d.inputs| && |outs| == |d.outputs|
          ensures Amplitude(chi, d, ins, outs) == Mul(PivotFactor(d, u, v), Amplitude(chi, d', ins, outs))
        {
          PivotAmplitude(chi, d, u, v, ins, outs);
        }
        AmplitudesGiveMap(chi, r, d, PivotFactor(d, u, v), d');
    }
  }

  /**
   * Any run of rewrites, of any length: the graph stays simple, the boundary and its spiders stay, the linear map
   * stays up to a nonzero scalar, and every step has consumed at least one spider, so runs end.
   */
  lemma {:induction false} RunKeeps(chi: real -> Complex, r: real, d: Diagram, steps: seq<Step>, d': Diagram)
    requires QuarterTurns(chi) && r != 0.0 && Simple(d) && IsRun(d, steps, d')
    ensures Simple(d') && d'.inputs == d.inputs && d'.outputs == d.outputs
    ensures ToSet(Ids(d'.spiders)) <= ToSet(Ids(d.spiders))
    ensures forall id :: id in Ids(d.spiders) && !IsInterior(d, id) ==> id in Ids(d'.spiders)
    ensures SameMap(chi, r, d, d')
    ensures |steps| + |d'.spiders| <= |d.spiders|
    decreases |steps|
  {
    hide Entry, ScaledMap, LocalComplementation, Pivot;
    if |steps| == 0 {
      SameMapRefl(chi, r, d);
    } else {
      StepKeeps(chi, r, d, steps[0]);
      var d1 := Apply(d, steps[0]).graph;
      RunKeeps(chi, r, d1, steps[1..], d');
      SameMapTrans(chi, r, d, d1, d');
    }
    assert forall id :: id in d.inputs || id in d.outputs ==> id in Ids(d'.spiders);
  }
}
