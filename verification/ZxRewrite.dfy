/**
 * Local complementation and pivoting as functions on diagrams (src/engine/zx-graph.ts:257-440), and the proof
 * that both keep the graph simple and keep its linear map up to an explicit nonzero scalar.
 */
module ZxRewrite {
  import opened ComplexNumbers
  import opened Summation
  import opened ZxDiagram

  // ---------------------------------------------------------------- edge toggling

  function FilterEdges(edges: seq<Edge>, keep: Edge -> bool): (kept: seq<Edge>)
    ensures forall e :: e in kept <==> e in edges && keep(e)
  {
    if |edges| == 0 then []
    else
      var rest, last := FilterEdges(edges[..|edges| - 1], keep), edges[|edges| - 1];
      assert edges == edges[..|edges| - 1] + [last];
      if keep(last) then rest + [last] else rest
  }

  function RemoveKey(edges: seq<Edge>, a: int, b: int): seq<Edge> {
    FilterEdges(edges, (e: Edge) => !SameKey(e, a, b))
  }

  function RemoveVertex(edges: seq<Edge>, u: int): seq<Edge> {
    FilterEdges(edges, (e: Edge) => e.0 != u && e.1 != u)
  }

  /** Removes the edge when present, appends it when absent. */
  function Toggle(edges: seq<Edge>, a: int, b: int): seq<Edge> {
    if HasEdge(edges, a, b) then RemoveKey(edges, a, b) else edges + [(a, b)]
  }

  function ToggleRow(edges: seq<Edge>, a: int, others: seq<int>): seq<Edge>
    decreases |others|
  {
    if |others| == 0 then edges else ToggleRow(Toggle(edges, a, others[0]), a, others[1..])
  }

  /** Toggles every pair of `vs`: the complementation step. */
  function ComplementAmong(edges: seq<Edge>, vs: seq<int>): seq<Edge>
    decreases |vs|
  {
    if |vs| == 0 then edges else ComplementAmong(ToggleRow(edges, vs[0], vs[1..]), vs[1..])
  }

  /** Toggles every pair with one end in each of two groups. */
  function ToggleBetween(edges: seq<Edge>, left: seq<int>, right: seq<int>): seq<Edge>
    decreases |left|
  {
    if |left| == 0 then edges else ToggleBetween(ToggleRow(edges, left[0], right), left[1..], right)
  }

  // ---------------------------------------------------------------- neighbourhoods

  /** The other ends of the edges at u, in edge order. */
  function Others(edges: seq<Edge>, u: int): seq<int> {
    if |edges| == 0 then []
    else
      var rest := Others(edges[..|edges| - 1], u);
      var (a, b) := edges[|edges| - 1];
      if a == u then rest + [b] else if b == u then rest + [a] else rest
  }

  function Insert(sorted: seq<int>, x: int): seq<int> {
    if |sorted| == 0 then [x]
    else if x == sorted[0] then sorted
    else if x < sorted[0] then [x] + sorted
    else [sorted[0]] + Insert(sorted[1..], x)
  }

  function SortedDistinct(s: seq<int>): seq<int> {
    if |s| == 0 then [] else Insert(SortedDistinct(s[..|s| - 1]), s[|s| - 1])
  }

  function Neighbours(edges: seq<Edge>, u: int): seq<int> {
    SortedDistinct(Others(edges, u))
  }

  predicate Ascending(s: seq<int>) {
    forall i, j :: 0 <= i < j < |s| ==> s[i] < s[j]
  }

  function Keep(ids: seq<int>, group: set<int>): (kept: seq<int>)
    ensures forall x :: x in kept <==> x in ids && x in group
  {
    if |ids| == 0 then []
    else
      assert ids == [ids[0]] + ids[1..];
      (if ids[0] in group then [ids[0]] else []) + Keep(ids[1..], group)
  }

  function Drop(ids: seq<int>, group: set<int>): (kept: seq<int>)
    ensures forall x :: x in kept <==> x in ids && x !in group
  {
    if |ids| == 0 then []
    else
      assert ids == [ids[0]] + ids[1..];
      (if ids[0] in group then [] else [ids[0]]) + Drop(ids[1..], group)
  }

  // ---------------------------------------------------------------- spiders

  /** Position of the first spider with this id, or the length when there is none. */
  function IndexOf(ids: seq<int>, id: int): (k: nat)
    ensures k <= |ids|
    ensures k < |ids| ==> ids[k] == id && id in ids
    ensures k == |ids| ==> id !in ids
  {
    if |ids| == 0 then 0
    else if ids[0] == id then 0
    else
      assert ids == [ids[0]] + ids[1..];
      1 + IndexOf(ids[1..], id)
  }

  function ShiftOne(spiders: seq<Spider>, id: int, amount: real): (shifted: seq<Spider>)
    ensures Ids(shifted) == Ids(spiders)
  {
    var i := IndexOf(Ids(spiders), id);
    if i == |spiders| then spiders
    else spiders[i := Spider(id, NormalisePhase(spiders[i].phase + amount))]
  }

  function ShiftPhases(spiders: seq<Spider>, ids: seq<int>, amount: real): (shifted: seq<Spider>)
    ensures Ids(shifted) == Ids(spiders)
    decreases |ids|
  {
    if |ids| == 0 then spiders else ShiftPhases(ShiftOne(spiders, ids[0], amount), ids[1..], amount)
  }

  function RemoveSpider(spiders: seq<Spider>, id: int): seq<Spider> {
    if |spiders| == 0 then []
    else
      var rest, last := RemoveSpider(spiders[..|spiders| - 1], id), spiders[|spiders| - 1];
      if last.id == id then rest else rest + [last]
  }

  // ---------------------------------------------------------------- the two rewrites

  datatype Outcome = Outcome(applied: bool, graph: Diagram)

  predicate HasSpider(d: Diagram, id: int) {
    IndexOf(Ids(d.spiders), id) < |d.spiders|
  }

  function PhaseOf(d: Diagram, id: int): real
    requires HasSpider(d, id)
  {
    NormalisePhase(d.spiders[IndexOf(Ids(d.spiders), id)].phase)
  }

  /** Side conditions of local complementation: an interior spider of phase +-pi/2. */
  predicate ComplementApplies(d: Diagram, id: int) {
    HasSpider(d, id) && IsInterior(d, id) && (PhaseOf(d, id) == 0.5 || PhaseOf(d, id) == 1.5)
  }

  /** Each neighbour's phase shifts by the opposite quarter turn. */
  function ComplementShift(d: Diagram, id: int): real
    requires HasSpider(d, id)
  {
    if PhaseOf(d, id) == 0.5 then -0.5 else 0.5
  }

  function Complemented(d: Diagram, id: int): Diagram
    requires HasSpider(d, id)
  {
    var affected := Neighbours(d.edges, id);
    d.(spiders := RemoveSpider(ShiftPhases(d.spiders, affected, ComplementShift(d, id)), id),
       edges := RemoveVertex(ComplementAmong(d.edges, affected), id))
  }

  /** Every unmet side condition is a refusal that changes nothing. */
  function LocalComplementation(d: Diagram, id: int): Outcome {
    if ComplementApplies(d, id) then Outcome(true, Complemented(d, id)) else Outcome(false, d)
  }

  /** Side conditions of pivoting: two adjacent interior spiders of phases 0 or pi. */
  predicate PivotApplies(d: Diagram, u: int, v: int) {
    && HasSpider(d, u) && HasSpider(d, v) && IsInterior(d, u) && IsInterior(d, v) && HasEdge(d.edges, u, v)
    && (PhaseOf(d, u) == 0.0 || PhaseOf(d, u) == 1.0) && (PhaseOf(d, v) == 0.0 || PhaseOf(d, v) == 1.0)
  }

  datatype Groups = Groups(onlyU: seq<int>, onlyV: seq<int>, shared: seq<int>)

  /** The neighbours of u only, of v only, and of both. */
  function GroupsOf(edges: seq<Edge>, u: int, v: int): Groups {
    var us, vs := Drop(Neighbours(edges, u), {v}), Drop(Neighbours(edges, v), {u});
    Groups(Drop(us, ToSet(vs)), Drop(vs, ToSet(us)), Keep(us, ToSet(vs)))
  }

  function ToggleGroups(edges: seq<Edge>, g: Groups): seq<Edge> {
    ToggleBetween(ToggleBetween(ToggleBetween(edges, g.onlyU, g.onlyV), g.onlyU, g.shared), g.onlyV, g.shared)
  }

  /** A shift of zero leaves the phases untouched. */
  function ShiftUnlessZero(spiders: seq<Spider>, ids: seq<int>, amount: real): (shifted: seq<Spider>)
    ensures Ids(shifted) == Ids(spiders)
  {
    if amount == 0.0 then spiders else ShiftPhases(spiders, ids, amount)
  }

  /** With a, b the phases of u and v: onlyU gains b, onlyV gains a, the shared ones gain a + b + 1. */
  function ShiftGroups(spiders: seq<Spider>, g: Groups, a: real, b: real): (shifted: seq<Spider>)
    ensures Ids(shifted) == Ids(spiders)
  {
    ShiftUnlessZero(ShiftUnlessZero(ShiftUnlessZero(spiders, g.onlyU, b), g.onlyV, a), g.shared, a + b + 1.0)
  }

  function Pivoted(d: Diagram, u: int, v: int): Diagram
    requires HasSpider(d, u) && HasSpider(d, v)
  {
    var g := GroupsOf(d.edges, u, v);
    d.(spiders := RemoveSpider(RemoveSpider(ShiftGroups(d.spiders, g, PhaseOf(d, u), PhaseOf(d, v)), u), v),
       edges := RemoveVertex(RemoveVertex(ToggleGroups(d.edges, g), u), v))
  }

  function Pivot(d: Diagram, u: int, v: int): Outcome {
    if PivotApplies(d, u, v) then Outcome(true, Pivoted(d, u, v)) else Outcome(false, d)
  }

  // ---------------------------------------------------------------- counting ones

  function Bit(id: int, ones: set<int>): int {
    if id in ones then 1 else 0
  }

  function Count(ids: seq<int>, ones: set<int>): int {
    if |ids| == 0 then 0 else Bit(ids[0], ones) + Count(ids[1..], ones)
  }

  function Pairs(ids: seq<int>, ones: set<int>): int {
    if |ids| == 0 then 0 else Bit(ids[0], ones) * Count(ids[1..], ones) + Pairs(ids[1..], ones)
  }

  /** k^2 = k + 2 * (pairs among the k): the arithmetic heart of local complementation. */
  lemma {:induction false} CountSquare(ids: seq<int>, ones: set<int>)
    ensures Count(ids, ones) * Count(ids, ones) == Count(ids, ones) + 2 * Pairs(ids, ones)
  {
    if |ids| > 0 {
      CountSquare(ids[1..], ones);
      var b, c := Bit(ids[0], ones), Count(ids[1..], ones);
      assert (b + c) * (b + c) == b * b + 2 * (b * c) + c * c;
      assert b * b == b;
    }
  }

  lemma {:induction false} CountIsCardinality(ids: seq<int>, ones: set<int>)
    requires Distinct(ids)
    ensures Count(ids, ones) == |ToSet(ids) * ones|
  {
    if |ids| == 0 {
      assert ToSet(ids) * ones == {};
    } else {
      CountIsCardinality(ids[1..], ones);
      assert ids == [ids[0]] + ids[1..];
      var here := if ids[0] in ones then {ids[0]} else {};
      assert ToSet(ids) * ones == here + ToSet(ids[1..]) * ones;
      assert ids[0] !in ids[1..];
    }
  }

  lemma CountBySet(ids: seq<int>, ids': seq<int>, ones: set<int>)
    requires Distinct(ids) && Distinct(ids') && ToSet(ids) == ToSet(ids')
    ensures Count(ids, ones) == Count(ids', ones)
  {
    CountIsCardinality(ids, ones);
    CountIsCardinality(ids', ones);
  }

  lemma {:induction false} KeepDropSplit(ids: seq<int>, group: set<int>, ones: set<int>)
    requires Distinct(ids)
    ensures Count(ids, ones) == Count(Keep(ids, group), ones) + Count(Drop(ids, group), ones)
    ensures Distinct(Keep(ids, group)) && Distinct(Drop(ids, group))
  {
    if |ids| > 0 {
      assert ids == [ids[0]] + ids[1..];
      assert ids[0] !in ids[1..];
      KeepDropSplit(ids[1..], group, ones);
      var head := if ids[0] in group then [ids[0]] else [];
      var tail := Keep(ids[1..], group);
      assert (head + tail)[|head|..] == tail;
      var head', tail' := if ids[0] in group then [] else [ids[0]], Drop(ids[1..], group);
      assert (head' + tail')[|head'|..] == tail';
    }
  }

  // ---------------------------------------------------------------- neighbours of a simple graph

  lemma {:induction false} InsertMembers(s: seq<int>, x: int)
    ensures forall y :: y in Insert(s, x) <==> y in s || y == x
  {
    if |s| > 0 {
      assert s == [s[0]] + s[1..];
      InsertMembers(s[1..], x);
    }
  }

  lemma {:induction false} InsertAscending(s: seq<int>, x: int)
    requires Ascending(s)
    ensures Ascending(Insert(s, x))
  {
    if |s| > 0 && x > s[0] {
      var t := Insert(s[1..], x);
      InsertAscending(s[1..], x);
      InsertMembers(s[1..], x);
      forall j | 0 <= j < |t| ensures s[0] < t[j] {
        assert t[j] in t;
      }
    }
  }

  lemma SameMembers(s: seq<int>, t: seq<int>)
    ensures ToSet(s) == ToSet(t) <==> forall y :: y in s <==> y in t
  {
    if forall y :: y in s <==> y in t {
      forall y ensures y in ToSet(s) <==> y in ToSet(t) {
        assert y in s <==> y in t;
      }
    }
    if ToSet(s) == ToSet(t) {
      forall y ensures y in s <==> y in t {
        assert y in s <==> y in ToSet(s);
        assert y in t <==> y in ToSet(t);
      }
    }
  }

  lemma {:induction false} SortedDistinctSet(s: seq<int>)
    ensures Ascending(SortedDistinct(s)) && Distinct(SortedDistinct(s)) && ToSet(SortedDistinct(s)) == ToSet(s)
  {
    if |s| > 0 {
      var rest := s[..|s| - 1];
      SortedDistinctSet(rest);
      InsertAscending(SortedDistinct(rest), s[|s| - 1]);
      InsertMembers(SortedDistinct(rest), s[|s| - 1]);
      SameMembers(SortedDistinct(rest), rest);
      assert s == rest + [s[|s| - 1]];
      SameMembers(SortedDistinct(s), s);
    } else {
      assert SortedDistinct(s) == s;
    }
  }

  lemma HasEdgeLast(edges: seq<Edge>, a: int, b: int)
    requires |edges| > 0
    ensures HasEdge(edges, a, b) <==> HasEdge(edges[..|edges| - 1], a, b) || SameKey(edges[|edges| - 1], a, b)
  {
    var rest := edges[..|edges| - 1];
    if HasEdge(rest, a, b) {
      var i :| 0 <= i < |rest| && SameKey(rest[i], a, b);
      assert SameKey(edges[i], a, b);
    }
  }

  lemma {:induction false} OthersMembers(edges: seq<Edge>, u: int)
    ensures forall x :: x in Others(edges, u) <==> HasEdge(edges, u, x)
  {
    if |edges| > 0 {
      OthersMembers(edges[..|edges| - 1], u);
      forall x ensures x in Others(edges, u) <==> HasEdge(edges, u, x) {
        HasEdgeLast(edges, u, x);
      }
    }
  }

  lemma {:induction false} OthersDistinct(edges: seq<Edge>, u: int)
    requires NoRepeats(edges)
    ensures Distinct(Others(edges, u))
  {
    if |edges| > 0 {
      var rest, e := edges[..|edges| - 1], edges[|edges| - 1];
      OthersDistinct(rest, u);
      OthersMembers(rest, u);
      forall i | 0 <= i < |rest| ensures !SameKey(rest[i], e.0, e.1) {
        assert !SameKey(edges[i], e.0, e.1);
      }
      assert !HasEdge(rest, e.0, e.1) && !HasEdge(rest, e.1, e.0);
    }
  }

  /** The neighbour list is strictly ascending and holds exactly the vertices joined to u. */
  lemma NeighboursExact(edges: seq<Edge>, u: int)
    ensures Ascending(Neighbours(edges, u)) && Distinct(Neighbours(edges, u))
    ensures forall x :: x in Neighbours(edges, u) <==> HasEdge(edges, u, x)
  {
    OthersMembers(edges, u);
    SortedDistinctSet(Others(edges, u));
    forall x ensures x in Neighbours(edges, u) <==> HasEdge(edges, u, x) {
      assert x in Neighbours(edges, u) <==> x in ToSet(Neighbours(edges, u));
      assert x in Others(edges, u) <==> x in ToSet(Others(edges, u));
    }
  }

  lemma {:induction false} CountAppend(ids: seq<int>, x: int, ones: set<int>)
    ensures Count(ids + [x], ones) == Count(ids, ones) + Bit(x, ones)
  {
    if |ids| > 0 {
      CountAppend(ids[1..], x, ones);
      assert (ids + [x])[1..] == ids[1..] + [x];
    }
  }

  /** Setting u activates exactly the edges from u to neighbours already set. */
  lemma {:induction false} ActivateOthers(edges: seq<Edge>, u: int, ones: set<int>)
    requires u !in ones && forall i :: 0 <= i < |edges| ==> edges[i].0 != edges[i].1
    ensures ActiveEdges(edges, ones + {u}) == ActiveEdges(edges, ones) + Count(Others(edges, u), ones)
  {
    if |edges| > 0 {
      var rest := edges[..|edges| - 1];
      var (a, b) := edges[|edges| - 1];
      ActivateOthers(rest, u, ones);
      if a == u { CountAppend(Others(rest, u), b, ones); }
      else if b == u { CountAppend(Others(rest, u), a, ones); }
    }
  }

  lemma Activate(edges: seq<Edge>, u: int, ones: set<int>)
    requires NoRepeats(edges) && u !in ones && forall i :: 0 <= i < |edges| ==> edges[i].0 != edges[i].1
    ensures ActiveEdges(edges, ones + {u}) == ActiveEdges(edges, ones) + Count(Neighbours(edges, u), ones)
  {
    ActivateOthers(edges, u, ones);
    OthersDistinct(edges, u);
    SortedDistinctSet(Others(edges, u));
    CountBySet(Others(edges, u), Neighbours(edges, u), ones);
  }

  // ---------------------------------------------------------------- adjacency after a filter or a toggle

  lemma HasEdgeMember(edges: seq<Edge>, a: int, b: int)
    ensures HasEdge(edges, a, b) <==> exists e :: e in edges && SameKey(e, a, b)
  {
    if HasEdge(edges, a, b) {
      var i :| 0 <= i < |edges| && SameKey(edges[i], a, b);
      assert edges[i] in edges;
    }
  }

  lemma FilterAdjacency(edges: seq<Edge>, keep: Edge -> bool, a: int, b: int)
    requires keep((a, b)) == keep((b, a))
    ensures HasEdge(FilterEdges(edges, keep), a, b) <==> HasEdge(edges, a, b) && keep((a, b))
  {
    HasEdgeMember(edges, a, b);
    HasEdgeMember(FilterEdges(edges, keep), a, b);
    if HasEdge(edges, a, b) && keep((a, b)) {
      var e :| e in edges && SameKey(e, a, b);
      assert e == (a, b) || e == (b, a);
      assert e in FilterEdges(edges, keep);
    }
    if HasEdge(FilterEdges(edges, keep), a, b) {
      var e :| e in FilterEdges(edges, keep) && SameKey(e, a, b);
      assert e == (a, b) || e == (b, a);
    }
  }

  lemma ToggleAdjacency(edges: seq<Edge>, a: int, b: int, x: int, y: int)
    ensures HasEdge(Toggle(edges, a, b), x, y) <==> HasEdge(edges, x, y) != SameKey((a, b), x, y)
  {
    if HasEdge(edges, a, b) {
      FilterAdjacency(edges, (e: Edge) => !SameKey(e, a, b), x, y);
    } else {
      var edges' := edges + [(a, b)];
      HasEdgeLast(edges', x, y);
      assert edges'[..|edges'| - 1] == edges;
    }
  }

  // ---------------------------------------------------------------- what toggling does to the active edges

  /** A well-formed edge list over a vertex set. */
  predicate Tidy(edges: seq<Edge>, ids: set<int>) {
    NoRepeats(edges) && EdgesWithin(edges, ids)
  }

  lemma {:induction false} FilterTidy(edges: seq<Edge>, keep: Edge -> bool, ids: set<int>)
    requires Tidy(edges, ids)
    ensures Tidy(FilterEdges(edges, keep), ids)
  {
    if |edges| > 0 {
      var rest, last := edges[..|edges| - 1], edges[|edges| - 1];
      FilterTidy(rest, keep, ids);
      var kept := FilterEdges(rest, keep);
      forall i | 0 <= i < |kept| ensures !SameKey(kept[i], last.0, last.1) {
        assert kept[i] in kept;
        var j :| 0 <= j < |rest| && rest[j] == kept[i];
        assert edges[j] == kept[i];
      }
    }
  }

  lemma {:induction false} FilterInactive(edges: seq<Edge>, keep: Edge -> bool, ones: set<int>)
    requires forall e :: e in edges && !keep(e) ==> !(e.0 in ones && e.1 in ones)
    ensures ActiveEdges(FilterEdges(edges, keep), ones) == ActiveEdges(edges, ones)
  {
    if |edges| > 0 {
      assert edges == edges[..|edges| - 1] + [edges[|edges| - 1]];
      FilterInactive(edges[..|edges| - 1], keep, ones);
    }
  }

  lemma {:induction false} RemoveKeyActive(edges: seq<Edge>, a: int, b: int, ones: set<int>)
    requires NoRepeats(edges)
    ensures ActiveEdges(RemoveKey(edges, a, b), ones)
         == ActiveEdges(edges, ones) - if HasEdge(edges, a, b) && a in ones && b in ones then 1 else 0
  {
    if |edges| > 0 {
      var rest, last := edges[..|edges| - 1], edges[|edges| - 1];
      RemoveKeyActive(rest, a, b, ones);
      HasEdgeLast(edges, a, b);
      if SameKey(last, a, b) {
        forall i | 0 <= i < |rest| ensures !SameKey(rest[i], a, b) {
          assert !SameKey(edges[i], last.0, last.1);
        }
      }
    }
  }

  predicate Even(x: int) {
    x % 2 == 0
  }

  lemma EvenSum(x: int, y: int)
    requires Even(x) && Even(y)
    ensures Even(x + y)
  {
  }

  lemma Distribute(x: int, y: int, z: int)
    ensures x * (y + z) == x * y + x * z && (y + z) * x == y * x + z * x
  {
  }

  lemma ToggleEffect(edges: seq<Edge>, a: int, b: int, ids: set<int>, ones: set<int>)
    requires Tidy(edges, ids) && a in ids && b in ids && a != b
    ensures Tidy(Toggle(edges, a, b), ids)
    ensures Even(ActiveEdges(Toggle(edges, a, b), ones) - ActiveEdges(edges, ones) - Bit(a, ones) * Bit(b, ones))
  {
    if HasEdge(edges, a, b) {
      FilterTidy(edges, (e: Edge) => !SameKey(e, a, b), ids);
      RemoveKeyActive(edges, a, b, ones);
    }
  }

  lemma {:induction false} ToggleRowEffect(edges: seq<Edge>, a: int, others: seq<int>, ids: set<int>, ones: set<int>)
    requires Tidy(edges, ids) && a in ids && a !in others && ToSet(others) <= ids
    ensures Tidy(ToggleRow(edges, a, others), ids)
    ensures Even(ActiveEdges(ToggleRow(edges, a, others), ones) - ActiveEdges(edges, ones)
                 - Bit(a, ones) * Count(others, ones))
    decreases |others|
  {
    hide Tidy, ActiveEdges, Toggle, Bit;
    if |others| > 0 {
      hide Even;
      assert others[0] in ToSet(others) && ToSet(others[1..]) <= ToSet(others);
      ToggleEffect(edges, a, others[0], ids, ones);
      var edges' := Toggle(edges, a, others[0]);
      ToggleRowEffect(edges', a, others[1..], ids, ones);
      var x, b, c := Bit(a, ones), Bit(others[0], ones), Count(others[1..], ones);
      var row := ToggleRow(edges', a, others[1..]);
      Distribute(x, b, c);
      EvenSum(ActiveEdges(edges', ones) - ActiveEdges(edges, ones) - x * b,
              ActiveEdges(row, ones) - ActiveEdges(edges', ones) - x * c);
    }
  }

  lemma {:induction false} ComplementEffect(edges: seq<Edge>, vs: seq<int>, ids: set<int>, ones: set<int>)
    requires Tidy(edges, ids) && Distinct(vs) && ToSet(vs) <= ids
    ensures Tidy(ComplementAmong(edges, vs), ids)
    ensures Even(ActiveEdges(ComplementAmong(edges, vs), ones) - ActiveEdges(edges, ones) - Pairs(vs, ones))
    decreases |vs|
  {
    hide Tidy, ActiveEdges, ToggleRow, Bit, Count;
    if |vs| > 0 {
      hide Even;
      assert vs[0] in ToSet(vs) && ToSet(vs[1..]) <= ToSet(vs);
      var row := ToggleRow(edges, vs[0], vs[1..]);
      ToggleRowEffect(edges, vs[0], vs[1..], ids, ones);
      ComplementEffect(row, vs[1..], ids, ones);
      EvenSum(ActiveEdges(row, ones) - ActiveEdges(edges, ones) - Bit(vs[0], ones) * Count(vs[1..], ones),
              ActiveEdges(ComplementAmong(row, vs[1..]), ones) - ActiveEdges(row, ones) - Pairs(vs[1..], ones));
    }
  }

  lemma {:induction false} BetweenEffect(
    edges: seq<Edge>, left: seq<int>, right: seq<int>, ids: set<int>, ones: set<int>)
    requires Tidy(edges, ids) && ToSet(left) !! ToSet(right) && ToSet(left) <= ids && ToSet(right) <= ids
    ensures Tidy(ToggleBetween(edges, left, right), ids)
    ensures Even(ActiveEdges(ToggleBetween(edges, left, right), ones) - ActiveEdges(edges, ones)
                 - Count(left, ones) * Count(right, ones))
    decreases |left|
  {
    hide Tidy, ActiveEdges, ToggleRow, Bit;
    if |left| > 0 {
      hide Even;
      assert left[0] in ToSet(left) && ToSet(left[1..]) <= ToSet(left);
      assert left[0] !in ToSet(right);
      var row := ToggleRow(edges, left[0], right);
      ToggleRowEffect(edges, left[0], right, ids, ones);
      BetweenEffect(row, left[1..], right, ids, ones);
      var b, c, r := Bit(left[0], ones), Count(left[1..], ones), Count(right, ones);
      Distribute(r, b, c);
      EvenSum(ActiveEdges(row, ones) - ActiveEdges(edges, ones) - b * r,
              ActiveEdges(ToggleBetween(row, left[1..], right), ones) - ActiveEdges(row, ones) - c * r);
    }
  }

  // ---------------------------------------------------------------- what shifting does to the angle

  lemma {:induction false} AngleUpdate(spiders: seq<Spider>, i: nat, phase: real, ones: set<int>)
    requires i < |spiders|
    ensures Angle(spiders[i := spiders[i].(phase := phase)], ones)
         == Angle(spiders, ones) + if spiders[i].id in ones then phase - spiders[i].phase else 0.0
  {
    var spiders' := spiders[i := spiders[i].(phase := phase)];
    var n := |spiders| - 1;
    if i == n {
      assert spiders'[..n] == spiders[..n];
    } else {
      assert spiders'[..n] == spiders[..n][i := spiders[i].(phase := phase)];
      AngleUpdate(spiders[..n], i, phase, ones);
    }
  }

  /** The amount once per listed id whose value is 1. */
  function Shifts(ids: seq<int>, ones: set<int>, amount: real): real {
    if |ids| == 0 then 0.0 else (if ids[0] in ones then amount else 0.0) + Shifts(ids[1..], ones, amount)
  }

  lemma {:induction false} ShiftsIsProduct(ids: seq<int>, ones: set<int>, amount: real)
    ensures Shifts(ids, ones, amount) == amount * (Count(ids, ones) as real)
  {
    if |ids| > 0 {
      ShiftsIsProduct(ids[1..], ones, amount);
      var b, c := Bit(ids[0], ones), Count(ids[1..], ones);
      assert amount * ((b + c) as real) == amount * (b as real) + amount * (c as real);
    }
  }

  lemma ShiftOneAngle(spiders: seq<Spider>, id: int, amount: real, ones: set<int>) returns (t: int)
    requires id in Ids(spiders)
    ensures Angle(ShiftOne(spiders, id, amount), ones)
         == Angle(spiders, ones) + (if id in ones then amount else 0.0) + 2.0 * (t as real)
  {
    var i := IndexOf(Ids(spiders), id);
    var phase := spiders[i].phase + amount;
    AngleUpdate(spiders, i, NormalisePhase(phase), ones);
    t := if id in ones then -((phase / 2.0).Floor) else 0;
  }

  /** Shifting phases moves the summed angle by the amount per affected one, up to whole turns. */
  lemma {:induction false} AngleShift(
    spiders: seq<Spider>, ids: seq<int>, amount: real, ones: set<int>)
    returns (t: int)
    requires ToSet(ids) <= ToSet(Ids(spiders))
    ensures Angle(ShiftPhases(spiders, ids, amount), ones)
         == Angle(spiders, ones) + Shifts(ids, ones, amount) + 2.0 * (t as real)
    decreases |ids|
  {
    if |ids| == 0 {
      t := 0;
    } else {
      assert ids[0] in ToSet(ids) && ToSet(ids[1..]) <= ToSet(ids);
      assert ids[0] in ToSet(Ids(spiders));
      var one := ShiftOneAngle(spiders, ids[0], amount, ones);
      var rest := AngleShift(ShiftOne(spiders, ids[0], amount), ids[1..], amount, ones);
      t := one + rest;
    }
  }

  lemma AngleShiftUnlessZero(spiders: seq<Spider>, ids: seq<int>, amount: real, ones: set<int>) returns (t: int)
    requires ToSet(ids) <= ToSet(Ids(spiders))
    ensures Angle(ShiftUnlessZero(spiders, ids, amount), ones)
         == Angle(spiders, ones) + Shifts(ids, ones, amount) + 2.0 * (t as real)
  {
    if amount == 0.0 {
      t := 0;
      ShiftsIsProduct(ids, ones, amount);
      assert amount * (Count(ids, ones) as real) == 0.0;
    } else {
      t := AngleShift(spiders, ids, amount, ones);
    }
  }

  lemma {:induction false} RemoveSpiderIds(spiders: seq<Spider>, i: nat)
    requires Distinct(Ids(spiders)) && i < |spiders|
    ensures Ids(RemoveSpider(spiders, spiders[i].id)) == Without(Ids(spiders), i)
  {
    var n, id := |spiders| - 1, spiders[i].id;
    var rest := spiders[..n];
    assert Ids(rest) == Ids(spiders)[..n];
    assert Ids(spiders)[i] == id;
    if i == n {
      assert id !in Ids(rest);
      RemoveAbsent(rest, id);
      assert Without(Ids(spiders), i) == Ids(rest);
    } else {
      RemoveSpiderIds(rest, i);
      assert Ids(spiders)[n] != id;
      assert Without(Ids(spiders), i) == Without(Ids(rest), i) + [Ids(spiders)[n]];
    }
  }

  lemma {:induction false} RemoveSpiderAngle(spiders: seq<Spider>, id: int, ones: set<int>)
    requires id !in ones
    ensures Angle(RemoveSpider(spiders, id), ones) == Angle(spiders, ones)
  {
    if |spiders| > 0 {
      var n := |spiders| - 1;
      RemoveSpiderAngle(spiders[..n], id, ones);
      if spiders[n].id != id {
        var removed := RemoveSpider(spiders, id);
        assert removed[..|removed| - 1] == RemoveSpider(spiders[..n], id);
      }
    }
  }

  lemma DistinctWithout(ids: seq<int>, i: nat)
    requires Distinct(ids) && i < |ids|
    ensures Distinct(Without(ids, i))
  {
  }

  lemma {:induction false} RemoveAbsent(spiders: seq<Spider>, id: int)
    requires id !in Ids(spiders)
    ensures RemoveSpider(spiders, id) == spiders
  {
    if |spiders| > 0 {
      var n := |spiders| - 1;
      assert Ids(spiders[..n]) == Ids(spiders)[..n];
      assert Ids(spiders)[n] in Ids(spiders);
      RemoveAbsent(spiders[..n], id);
      assert spiders == spiders[..n] + [spiders[n]];
    }
  }

  lemma {:induction false} AngleWith(spiders: seq<Spider>, i: nat, ones: set<int>)
    requires Distinct(Ids(spiders)) && i < |spiders| && spiders[i].id !in ones
    ensures Angle(spiders, ones + {spiders[i].id}) == Angle(spiders, ones) + spiders[i].phase
  {
    var n, id := |spiders| - 1, spiders[i].id;
    assert Ids(spiders[..n]) == Ids(spiders)[..n];
    assert Ids(spiders)[i] == id;
    if i == n {
      AngleIgnores(spiders[..n], id, ones);
    } else {
      assert Ids(spiders)[n] != id;
      AngleWith(spiders[..n], i, ones);
    }
  }

  lemma {:induction false} AngleIgnores(spiders: seq<Spider>, id: int, ones: set<int>)
    requires id !in Ids(spiders)
    ensures Angle(spiders, ones + {id}) == Angle(spiders, ones)
  {
    if |spiders| > 0 {
      var n := |spiders| - 1;
      assert Ids(spiders[..n]) == Ids(spiders)[..n];
      assert Ids(spiders)[n] in Ids(spiders);
      AngleIgnores(spiders[..n], id, ones);
    }
  }
}
