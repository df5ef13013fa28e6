/**
 * The mutable graph of src/engine/zx-graph.ts and the two rewrites as the source runs them: copy the input, then
 * update the copy in place. Each method is proved against the function on diagrams of the same name.
 */
module ZxGraphs {
  import opened Summation
  import opened ZxDiagram
  import R = ZxRewrite

  /** The identifier of an undirected edge: its ends in ascending order. */
  function Key(a: int, b: int): Edge {
    if a < b then (a, b) else (b, a)
  }

  /** The identifier set is in step with the edge list. */
  ghost predicate Tracks(present: set<Edge>, edges: seq<Edge>) {
    forall a, b :: Key(a, b) in present <==> HasEdge(edges, a, b)
  }

  lemma TracksEdge(present: set<Edge>, edges: seq<Edge>, a: int, b: int)
    requires Tracks(present, edges)
    ensures Key(a, b) in present <==> HasEdge(edges, a, b)
  {
  }

  ghost predicate NoneShared(left: seq<int>, right: seq<int>) {
    forall a, b :: a in left && b in right ==> a != b
  }

  class ZxGraph {
    var spiders: seq<Spider>
    var edges: seq<Edge>
    const inputs: seq<int>
    const outputs: seq<int>

    ghost function Value(): Diagram
      reads this
    {
      Diagram(spiders, edges, inputs, outputs)
    }

    constructor (spiders: seq<Spider>, edges: seq<Edge>, inputs: seq<int>, outputs: seq<int>)
      ensures Value() == Diagram(spiders, edges, inputs, outputs)
    {
      this.spiders, this.edges, this.inputs, this.outputs := spiders, edges, inputs, outputs;
    }

    /** The set of edge identifiers. */
    method EdgeSet() returns (present: set<Edge>)
      ensures Tracks(present, edges)
    {
      present := {};
      for k := 0 to |edges|
        invariant forall a, b :: Key(a, b) in present <==> HasEdge(edges[..k], a, b)
      {
        present := present + {Key(edges[k].0, edges[k].1)};
        assert edges[..k + 1][..k] == edges[..k];
        forall a, b ensures Key(a, b) in present <==> HasEdge(edges[..k + 1], a, b) {
          R.HasEdgeLast(edges[..k + 1], a, b);
        }
      }
      assert edges[..|edges|] == edges;
    }

    method Neighbours(id: int) returns (found: seq<int>)
      ensures found == R.Neighbours(edges, id)
    {
      found := [];
      for k := 0 to |edges|
        invariant found == R.Others(edges[..k], id)
      {
        var (a, b) := edges[k];
        assert edges[..k + 1][..k] == edges[..k];
        if a == id { found := found + [b]; }
        else if b == id { found := found + [a]; }
      }
      assert edges[..|edges|] == edges;
      found := R.SortedDistinct(found);
    }

    /** Toggles one edge, keeping the identifier set in step with the edge list. */
    method Toggle(present: set<Edge>, a: int, b: int) returns (present': set<Edge>)
      requires Tracks(present, edges)
      modifies this`edges
      ensures edges == R.Toggle(old(edges), a, b)
      ensures Tracks(present', edges)
    {
      var identifier := Key(a, b);
      forall x, y ensures HasEdge(R.Toggle(edges, a, b), x, y) <==> HasEdge(edges, x, y) != SameKey((a, b), x, y) {
        R.ToggleAdjacency(edges, a, b, x, y);
      }
      if identifier in present {
        present' := present - {identifier};
        edges := R.RemoveKey(edges, a, b);
      } else {
        present' := present + {identifier};
        edges := edges + [(a, b)];
      }
    }

    /** Toggle Hadamard edges among every pair in `vertices`. */
    method ComplementAmong(vertices: seq<int>)
      modifies this`edges
      ensures edges == R.ComplementAmong(old(edges), vertices)
    {
      hide R.Toggle, HasEdge, Key, Tracks;
      var present := EdgeSet();
      var i := 0;
      while i < |vertices|
        invariant 0 <= i <= |vertices|
        invariant Tracks(present, edges)
        invariant R.ComplementAmong(edges, vertices[i..]) == R.ComplementAmong(old(edges), vertices)
      {
        var j := i + 1;
        assert vertices[i..][0] == vertices[i] && vertices[i..][1..] == vertices[i + 1..];
        while j < |vertices|
          invariant i < j <= |vertices|
          invariant Tracks(present, edges)
          invariant R.ComplementAmong(R.ToggleRow(edges, vertices[i], vertices[j..]), vertices[i + 1..])
                 == R.ComplementAmong(old(edges), vertices)
        {
          assert vertices[j..][0] == vertices[j] && vertices[j..][1..] == vertices[j + 1..];
          present := Toggle(present, vertices[i], vertices[j]);
          j := j + 1;
        }
        assert vertices[j..] == [];
        i := i + 1;
      }
      assert vertices[i..] == [];
    }

    /** Toggle the edges between each member of one group and each member of another. */
    method ToggleBetween(present: set<Edge>, left: seq<int>, right: seq<int>) returns (present': set<Edge>)
      requires Tracks(present, edges)
      requires NoneShared(left, right)
      modifies this`edges
      ensures edges == R.ToggleBetween(old(edges), left, right)
      ensures Tracks(present', edges)
    {
      hide R.Toggle, HasEdge, Key, Tracks;
      present' := present;
      var i := 0;
      while i < |left|
        invariant 0 <= i <= |left|
        invariant Tracks(present', edges)
        invariant R.ToggleBetween(edges, left[i..], right) == R.ToggleBetween(old(edges), left, right)
      {
        var j := 0;
        assert left[i..][0] == left[i] && left[i..][1..] == left[i + 1..];
        assert right[0..] == right;
        while j < |right|
          invariant 0 <= j <= |right|
          invariant Tracks(present', edges)
          invariant R.ToggleBetween(R.ToggleRow(edges, left[i], right[j..]), left[i + 1..], right)
                 == R.ToggleBetween(old(edges), left, right)
        {
          assert right[j..][0] == right[j] && right[j..][1..] == right[j + 1..];
          assert left[i] in left && right[j] in right;
          if left[i] != right[j] {
            present' := Toggle(present', left[i], right[j]);
          }
          j := j + 1;
        }
        assert right[j..] == [];
        i := i + 1;
      }
      assert left[i..] == [];
    }

    /** Shift the phase of each listed spider. */
    method ShiftPhases(ids: seq<int>, amount: real)
      modifies this`spiders
      ensures spiders == R.ShiftPhases(old(spiders), ids, amount)
    {
      hide NormalisePhase;
      var k := 0;
      while k < |ids|
        invariant 0 <= k <= |ids|
        invariant R.ShiftPhases(spiders, ids[k..], amount) == R.ShiftPhases(old(spiders), ids, amount)
      {
        assert ids[k..][0] == ids[k] && ids[k..][1..] == ids[k + 1..];
        var target := R.IndexOf(Ids(spiders), ids[k]);
        if target < |spiders| {
          spiders := spiders[target := Spider(ids[k], NormalisePhase(spiders[target].phase + amount))];
        }
        k := k + 1;
      }
      assert ids[k..] == [];
    }
  }

  lemma GroupsShareNone(us: seq<int>, vs: seq<int>)
    ensures var onlyU, onlyV, shared := R.Drop(us, ToSet(vs)), R.Drop(vs, ToSet(us)), R.Keep(us, ToSet(vs));
      NoneShared(onlyU, onlyV) && NoneShared(onlyU, shared) && NoneShared(onlyV, shared)
  {
  }

  /** Removes an interior spider of phase +-pi/2; a refusal returns the input itself, untouched. */
  method LocalComplementation(input: ZxGraph, id: int) returns (applied: bool, graph: ZxGraph)
    ensures R.Outcome(applied, graph.Value()) == R.LocalComplementation(input.Value(), id)
    ensures if applied then fresh(graph) else graph == input
  {
    var position := R.IndexOf(Ids(input.spiders), id);
    if position == |input.spiders| {
      return false, input;
    }
    if id in input.inputs || id in input.outputs {
      return false, input;
    }
    var phase := NormalisePhase(input.spiders[position].phase);
    if phase != 0.5 && phase != 1.5 {
      return false, input;
    }
    graph := new ZxGraph(input.spiders, input.edges, input.inputs, input.outputs);
    var affected := graph.Neighbours(id);
    var shift := if phase == 0.5 then -0.5 else 0.5;
    graph.ShiftPhases(affected, shift);
    graph.ComplementAmong(affected);
    graph.edges := R.RemoveVertex(graph.edges, id);
    graph.spiders := R.RemoveSpider(graph.spiders, id);
    applied := true;
  }

  /** Removes two adjacent interior spiders of phases 0 or pi; a refusal returns the input itself, untouched. */
  method Pivot(input: ZxGraph, u: int, v: int) returns (applied: bool, graph: ZxGraph)
    ensures R.Outcome(applied, graph.Value()) == R.Pivot(input.Value(), u, v)
    ensures if applied then fresh(graph) else graph == input
  {
    hide R.ToggleBetween, R.Neighbours, R.Drop, R.Keep, R.ShiftPhases, R.RemoveSpider, R.RemoveVertex, NormalisePhase;
    hide Tracks, HasEdge, Key, NoneShared, R.IndexOf;
    var first, second := R.IndexOf(Ids(input.spiders), u), R.IndexOf(Ids(input.spiders), v);
    if first == |input.spiders| || second == |input.spiders| {
      return false, input;
    }
    if u in input.inputs || u in input.outputs || v in input.inputs || v in input.outputs {
      return false, input;
    }
    var present := input.EdgeSet();
    TracksEdge(present, input.edges, u, v);
    if Key(u, v) !in present {
      return false, input;
    }
    var a, b := NormalisePhase(input.spiders[first].phase), NormalisePhase(input.spiders[second].phase);
    if (a != 0.0 && a != 1.0) || (b != 0.0 && b != 1.0) {
      return false, input;
    }
    graph := new ZxGraph(input.spiders, input.edges, input.inputs, input.outputs);
    var us := graph.Neighbours(u);
    us := R.Drop(us, {v});
    var vs := graph.Neighbours(v);
    vs := R.Drop(vs, {u});
    var shared, onlyU, onlyV := R.Keep(us, ToSet(vs)), R.Drop(us, ToSet(vs)), R.Drop(vs, ToSet(us));
    GroupsShareNone(us, vs);
    present := graph.ToggleBetween(present, onlyU, onlyV);
    present := graph.ToggleBetween(present, onlyU, shared);
    present := graph.ToggleBetween(present, onlyV, shared);
    if b != 0.0 { graph.ShiftPhases(onlyU, b); }
    if a != 0.0 { graph.ShiftPhases(onlyV, a); }
    if a + b + 1.0 != 0.0 { graph.ShiftPhases(shared, a + b + 1.0); }
    graph.edges := R.RemoveVertex(R.RemoveVertex(graph.edges, u), v);
    graph.spiders := R.RemoveSpider(R.RemoveSpider(graph.spiders, u), v);
    applied := true;
  }
}
