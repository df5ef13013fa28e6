/** The coupling graph of a device and breadth-first search on it (src/hardware/profile.ts:103-165). */
module CouplingGraph {
  import opened Options

  /** Operational qubits with their neighbours in insertion order. */
  type Adjacency = map<nat, seq<nat>>

  datatype Coupling = Coupling(control: nat, target: nat)

  datatype Profile = Profile(
    qubitCount: nat,
    inoperable: set<nat>,
    allToAll: bool,
    couplings: seq<Coupling>)

  // ---------------------------------------------------------------- walks

  /** An edge between two operational qubits. */
  predicate Edge(adjacency: Adjacency, a: nat, b: nat) {
    a in adjacency && b in adjacency && b in adjacency[a]
  }

  predicate IsWalk(adjacency: Adjacency, walk: seq<nat>, from: nat, to: nat) {
    && |walk| > 0 && walk[0] == from && walk[|walk| - 1] == to
    && forall i :: 0 <= i < |walk| - 1 ==> Edge(adjacency, walk[i], walk[i + 1])
  }

  /** A simple walk with no more vertices than any other. */
  ghost predicate IsShortest(adjacency: Adjacency, path: seq<nat>, from: nat, to: nat) {
    && IsWalk(adjacency, path, from, to)
    && (forall i, j :: 0 <= i < j < |path| ==> path[i] != path[j])
    && forall walk :: IsWalk(adjacency, walk, from, to) ==> |path| <= |walk|
  }

  // ---------------------------------------------------------------- adjacency of a profile

  predicate Operational(profile: Profile, q: nat) {
    q < profile.qubitCount && q !in profile.inoperable
  }

  predicate Coupled(couplings: seq<Coupling>, a: nat, b: nat) {
    exists k :: 0 <= k < |couplings| && (couplings[k] == Coupling(a, b) || couplings[k] == Coupling(b, a))
  }

  function Include(s: seq<nat>, x: nat): seq<nat> {
    if x in s then s else s + [x]
  }

  /** Neighbours in both directions per coupling, over operational qubits only. */
  method CouplingAdjacency(profile: Profile) returns (adjacency: Adjacency)
    ensures forall q: nat :: q in adjacency <==> q < profile.qubitCount && q !in profile.inoperable
    ensures forall q: nat :: q in adjacency <==> Operational(profile, q)
    ensures forall a: nat, b: nat :: Edge(adjacency, a, b) <==>
      (Operational(profile, a) && Operational(profile, b)
       && if profile.allToAll then a != b else Coupled(profile.couplings, a, b))
  {
    adjacency := map[];
    for index := 0 to profile.qubitCount
      invariant forall q: nat :: q in adjacency <==> q < index && q !in profile.inoperable
      invariant forall q: nat :: q in adjacency ==> adjacency[q] == []
    {
      if index !in profile.inoperable {
        adjacency := adjacency[index := []];
      }
    }
    if profile.allToAll {
      adjacency := AllToAll(profile.qubitCount, adjacency);
      return;
    }
    for k := 0 to |profile.couplings|
      invariant forall q: nat :: q in adjacency <==> Operational(profile, q)
      invariant forall a: nat, b: nat :: a in adjacency && b in adjacency ==>
        (b in adjacency[a] <==> Coupled(profile.couplings[..k], a, b))
    {
      var c := profile.couplings[k];
      ghost var before := adjacency;
      if c.control in adjacency && c.target in adjacency {
        adjacency := adjacency[c.control := Include(adjacency[c.control], c.target)];
        adjacency := adjacency[c.target := Include(adjacency[c.target], c.control)];
      }
      forall a: nat, b: nat | a in adjacency && b in adjacency
        ensures b in adjacency[a] <==> Coupled(profile.couplings[..k + 1], a, b)
      {
        CoupledNext(profile.couplings, k, a, b);
        assert b in before[a] <==> Coupled(profile.couplings[..k], a, b);
      }
    }
    assert profile.couplings[..|profile.couplings|] == profile.couplings;
  }

  lemma CoupledNext(couplings: seq<Coupling>, k: nat, a: nat, b: nat)
    requires k < |couplings|
    ensures Coupled(couplings[..k + 1], a, b) <==>
      (Coupled(couplings[..k], a, b) || couplings[k] == Coupling(a, b) || couplings[k] == Coupling(b, a))
  {
    var next := couplings[..k + 1];
    if Coupled(couplings[..k], a, b) {
      var j :| 0 <= j < k && (couplings[..k][j] == Coupling(a, b) || couplings[..k][j] == Coupling(b, a));
      assert next[j] == couplings[..k][j];
    }
    assert next[k] == couplings[k];
    if Coupled(next, a, b) {
      var j :| 0 <= j < k + 1 && (next[j] == Coupling(a, b) || next[j] == Coupling(b, a));
      if j < k { assert couplings[..k][j] == next[j]; }
    }
  }

  method AllToAll(qubitCount: nat, empty: Adjacency) returns (adjacency: Adjacency)
    requires forall q: nat :: q in empty ==> q < qubitCount && empty[q] == []
    ensures adjacency.Keys == empty.Keys
    ensures forall a: nat, b: nat :: a in adjacency && b in adjacency ==> (b in adjacency[a] <==> a != b)
  {
    adjacency := empty;
    for qubit := 0 to qubitCount
      invariant adjacency.Keys == empty.Keys
      invariant forall a: nat, b: nat :: a in adjacency && b in adjacency ==>
        (b in adjacency[a] <==> a < qubit && a != b)
    {
      if qubit in adjacency {
        for other := 0 to qubitCount
          invariant adjacency.Keys == empty.Keys
          invariant forall a: nat, b: nat :: a in adjacency && b in adjacency && a != qubit ==>
            (b in adjacency[a] <==> a < qubit && a != b)
          invariant forall b: nat :: b in adjacency ==> (b in adjacency[qubit] <==> b < other && b != qubit)
        {
          if other in adjacency && other != qubit {
            adjacency := adjacency[qubit := Include(adjacency[qubit], other)];
          }
        }
      }
    }
  }

  // ---------------------------------------------------------------- breadth-first search

  /** Everything the search can reach: keys, their neighbours, and the start. */
  function Universe(adjacency: Adjacency, from: nat): set<nat> {
    adjacency.Keys + (set a, b | a in adjacency && b in adjacency[a] :: b) + {from}
  }

  /** What the discovered vertices know: a depth, and a predecessor one step closer. */
  ghost predicate Discovered(adjacency: Adjacency, from: nat, previous: map<nat, nat>, depth: map<nat, nat>) {
    && previous.Keys == depth.Keys
    && from in depth && depth[from] == 0
    && (forall v: nat :: v in depth && v != from ==> depth[v] > 0)
    && forall v: nat :: v in previous && v != from ==>
         previous[v] in depth && previous[v] in adjacency && v in adjacency[previous[v]]
         && depth[v] == depth[previous[v]] + 1
  }

  /** The FIFO queue holds distinct discovered vertices by depth, and spans at most two consecutive depths. */
  ghost predicate QueueByDepth(queue: seq<nat>, depth: map<nat, nat>) {
    && (forall i :: 0 <= i < |queue| ==> queue[i] in depth)
    && (forall i, j :: 0 <= i < j < |queue| ==> depth[queue[i]] <= depth[queue[j]])
    && (forall i, j :: 0 <= i < |queue| && 0 <= j < |queue| ==> depth[queue[j]] <= depth[queue[i]] + 1)
  }

  /** A discovered vertex all of whose neighbours are discovered, at most one step deeper. */
  ghost predicate Processed(adjacency: Adjacency, depth: map<nat, nat>, v: nat) {
    v in depth && (v in adjacency ==> forall w: nat :: w in adjacency[v] ==> w in depth && depth[w] <= depth[v] + 1)
  }

  /** Every discovered vertex outside the queue has been processed, and is no deeper than anything queued. */
  ghost predicate OthersProcessed(adjacency: Adjacency, queue: seq<nat>, depth: map<nat, nat>) {
    forall v: nat :: v in depth && v !in queue ==> Processed(adjacency, depth, v)
  }

  /** A walk no longer than the depth `limit` ends at a discovered vertex of depth at most its length. */
  lemma {:induction false} WalkFound(
    adjacency: Adjacency, from: nat, depth: map<nat, nat>, limit: nat, walk: seq<nat>, to: nat)
    requires from in depth && depth[from] == 0
    requires forall v: nat :: v in depth && depth[v] < limit ==> Processed(adjacency, depth, v)
    requires IsWalk(adjacency, walk, from, to) && |walk| - 1 <= limit
    ensures to in depth && depth[to] <= |walk| - 1
    decreases |walk|
  {
    if |walk| > 1 {
      var u := walk[|walk| - 2];
      WalkFound(adjacency, from, depth, limit, walk[..|walk| - 1], u);
      assert Edge(adjacency, walk[|walk| - 2], walk[|walk| - 2 + 1]);
    }
  }

  /** With every discovered vertex processed, a walk of any length stays among the discovered ones. */
  lemma {:induction false} WalkStays(
    adjacency: Adjacency, from: nat, depth: map<nat, nat>, walk: seq<nat>, to: nat)
    requires from in depth && forall v: nat :: v in depth ==> Processed(adjacency, depth, v)
    requires IsWalk(adjacency, walk, from, to)
    ensures to in depth
    decreases |walk|
  {
    if |walk| > 1 {
      var u := walk[|walk| - 2];
      WalkStays(adjacency, from, depth, walk[..|walk| - 1], u);
      assert Edge(adjacency, walk[|walk| - 2], walk[|walk| - 2 + 1]);
    }
  }

  /** Follows predecessors back from `to`; the walk climbs one depth per step, so no vertex repeats. */
  method WalkBack(adjacency: Adjacency, from: nat, to: nat, previous: map<nat, nat>, ghost depth: map<nat, nat>)
    returns (path: seq<nat>)
    requires Discovered(adjacency, from, previous, depth) && to in depth && to in adjacency
    ensures IsWalk(adjacency, path, from, to) && |path| == depth[to] + 1
    ensures forall i, j :: 0 <= i < j < |path| ==> path[i] != path[j]
  {
    hide Edge;
    path := [to];
    var step := to;
    while step != from
      invariant step in depth && step in adjacency && depth[step] + |path| == depth[to] + 1
      invariant IsWalk(adjacency, path, step, to)
      invariant forall i :: 0 <= i < |path| ==> path[i] in depth && depth[path[i]] == depth[step] + i
      decreases depth[step]
    {
      OneBack(adjacency, from, previous, depth, step);
      var before := previous[step];
      Prepended(adjacency, before, path, step, to);
      path, step := [before] + path, before;
    }
  }

  lemma OneBack(adjacency: Adjacency, from: nat, previous: map<nat, nat>, depth: map<nat, nat>, step: nat)
    requires Discovered(adjacency, from, previous, depth) && step in depth && step in adjacency && step != from
    ensures step in previous && previous[step] in depth && previous[step] in adjacency
    ensures Edge(adjacency, previous[step], step) && depth[previous[step]] + 1 == depth[step]
  {
  }

  lemma Prepended(adjacency: Adjacency, first: nat, path: seq<nat>, from: nat, to: nat)
    requires IsWalk(adjacency, path, from, to) && Edge(adjacency, first, from)
    ensures IsWalk(adjacency, [first] + path, first, to)
  {
    var longer := [first] + path;
    forall i | 0 <= i < |longer| - 1 ensures Edge(adjacency, longer[i], longer[i + 1]) {
      if i > 0 { assert longer[i] == path[i - 1] && longer[i + 1] == path[i - 1 + 1]; }
    }
  }

  /** The state of the search between two dequeues. */
  ghost predicate Frontier(
    adjacency: Adjacency, from: nat, queue: seq<nat>, previous: map<nat, nat>, depth: map<nat, nat>)
  {
    && Discovered(adjacency, from, previous, depth)
    && QueueByDepth(queue, depth)
    && OthersProcessed(adjacency, queue, depth)
    && forall v: nat, i :: v in depth && v !in queue && 0 <= i < |queue| ==> depth[v] <= depth[queue[i]]
  }

  /** What handling part of a vertex's neighbours has changed: new vertices one deeper, at the back of the queue. */
  ghost predicate Grown(current: nat, queue0: seq<nat>, depth0: map<nat, nat>, queue: seq<nat>, depth: map<nat, nat>) {
    && depth0.Keys <= depth.Keys && current in depth0
    && (forall v: nat :: v in depth0 ==> depth[v] == depth0[v])
    && (forall v: nat :: v in depth && v !in depth0 ==> v in queue && depth[v] == depth0[current] + 1)
    && (depth.Keys == depth0.Keys ==> queue == queue0)
    && QueueByDepth(queue, depth)
    && (forall i :: 0 <= i < |queue| ==> depth0[current] <= depth[queue[i]] <= depth0[current] + 1)
    && (forall v: nat :: v in queue0 ==> v in queue)
    && (forall v: nat :: v in queue && v in depth0 ==> v in queue0)
  }

  /** After all neighbours of the dequeued vertex are handled, the search state is whole again. */
  lemma FrontierRestored(
    adjacency: Adjacency, from: nat, current: nat, queue0: seq<nat>, previous0: map<nat, nat>, depth0: map<nat, nat>,
    queue: seq<nat>, previous: map<nat, nat>, depth: map<nat, nat>)
    requires Frontier(adjacency, from, [current] + queue0, previous0, depth0)
    requires Discovered(adjacency, from, previous, depth) && Grown(current, queue0, depth0, queue, depth)
    requires Processed(adjacency, depth, current)
    ensures Frontier(adjacency, from, queue, previous, depth)
  {
    var whole := [current] + queue0;
    assert whole[0] == current;
    forall v: nat | v in depth && v !in queue
      ensures Processed(adjacency, depth, v) && depth[v] <= depth0[current]
    {
      if v != current {
        assert v !in whole;
        assert Processed(adjacency, depth0, v) && depth0[v] <= depth0[whole[0]];
      }
    }
  }

  lemma DiscoverOne(
    adjacency: Adjacency, from: nat, previous: map<nat, nat>, depth: map<nat, nat>, current: nat, neighbour: nat)
    requires Discovered(adjacency, from, previous, depth)
    requires current in depth && current in adjacency && neighbour in adjacency[current] && neighbour !in depth
    ensures Discovered(adjacency, from, previous[neighbour := current], depth[neighbour := depth[current] + 1])
  {
  }

  lemma GrowOne(
    current: nat, queue0: seq<nat>, depth0: map<nat, nat>, queue: seq<nat>, depth: map<nat, nat>, neighbour: nat)
    requires Grown(current, queue0, depth0, queue, depth) && neighbour !in depth
    ensures Grown(current, queue0, depth0, queue + [neighbour], depth[neighbour := depth[current] + 1])
  {
    var queue', depth' := queue + [neighbour], depth[neighbour := depth[current] + 1];
    assert depth[current] == depth0[current];
    assert neighbour in depth' && neighbour !in depth0;
    assert forall i :: 0 <= i < |queue| ==> queue'[i] == queue[i] && queue[i] != neighbour;
    assert queue'[|queue|] == neighbour;
  }

  lemma GrownStart(current: nat, queue0: seq<nat>, depth0: map<nat, nat>)
    requires QueueByDepth([current] + queue0, depth0)
    ensures Grown(current, queue0, depth0, queue0, depth0)
  {
    var whole := [current] + queue0;
    assert whole[0] == current && whole[1..] == queue0;
    assert forall i :: 0 <= i < |queue0| ==> queue0[i] == whole[i + 1];
  }

  /** A neighbour that is already discovered is at most one deeper than the dequeued vertex. */
  lemma KnownNotDeeper(
    adjacency: Adjacency, from: nat, current: nat, queue0: seq<nat>, previous0: map<nat, nat>, depth0: map<nat, nat>,
    queue: seq<nat>, depth: map<nat, nat>, neighbour: nat)
    requires Frontier(adjacency, from, [current] + queue0, previous0, depth0)
    requires Grown(current, queue0, depth0, queue, depth) && neighbour in depth
    ensures depth[neighbour] <= depth[current] + 1
  {
    var whole := [current] + queue0;
    assert whole[0] == current;
    if neighbour in depth0 {
      if neighbour in whole {
        var i :| 0 <= i < |whole| && whole[i] == neighbour;
        assert depth0[whole[i]] <= depth0[whole[0]] + 1;
      } else {
        assert depth0[neighbour] <= depth0[whole[0]];
      }
    }
  }

  /** Handles the neighbours of the dequeued vertex in order, stopping when the target turns up. */
  method Expand(
    adjacency: Adjacency, from: nat, to: nat, current: nat, queue0: seq<nat>,
    previous0: map<nat, nat>, ghost depth0: map<nat, nat>, ghost universe: set<nat>)
    returns (hit: bool, queue: seq<nat>, previous: map<nat, nat>, ghost depth: map<nat, nat>)
    requires universe == Universe(adjacency, from)
    requires Frontier(adjacency, from, [current] + queue0, previous0, depth0)
    requires to !in depth0 && depth0.Keys <= universe && current in depth0
    ensures Discovered(adjacency, from, previous, depth)
    ensures hit ==> to in depth && depth[to] == depth0[current] + 1
    ensures !hit ==> to !in depth && Frontier(adjacency, from, queue, previous, depth)
    ensures !hit ==> depth0.Keys <= depth.Keys <= universe && (depth.Keys == depth0.Keys ==> queue == queue0)
  {
    hide QueueByDepth, OthersProcessed, Discovered, Grown, Frontier, Processed, Universe;
    StartExpanding(adjacency, from, current, queue0, previous0, depth0);
    hit, queue, previous, depth := false, queue0, previous0, depth0;
    var neighbours := if current in adjacency then adjacency[current] else [];
    for k := 0 to |neighbours|
      invariant Discovered(adjacency, from, previous, depth)
      invariant to !in depth && depth.Keys <= universe
      invariant Grown(current, queue0, depth0, queue, depth)
      invariant forall i :: 0 <= i < k ==> neighbours[i] in depth && depth[neighbours[i]] <= depth0[current] + 1
    {
      var neighbour := neighbours[k];
      InUniverse(adjacency, from, current, neighbour);
      SearchFacts(adjacency, from, current, queue0, depth0, queue, previous, depth);
      if neighbour in previous {
        KnownNotDeeper(adjacency, from, current, queue0, previous0, depth0, queue, depth, neighbour);
        continue;
      }
      DiscoverOne(adjacency, from, previous, depth, current, neighbour);
      GrowOne(current, queue0, depth0, queue, depth, neighbour);
      previous := previous[neighbour := current];
      depth := depth[neighbour := depth[current] + 1];
      if neighbour == to {
        hit := true;
        return;
      }
      queue := queue + [neighbour];
    }
    SearchFacts(adjacency, from, current, queue0, depth0, queue, previous, depth);
    AllHandled(adjacency, depth, current, neighbours);
    FrontierRestored(adjacency, from, current, queue0, previous0, depth0, queue, previous, depth);
  }

  lemma StartExpanding(
    adjacency: Adjacency, from: nat, current: nat, queue0: seq<nat>, previous0: map<nat, nat>, depth0: map<nat, nat>)
    requires Frontier(adjacency, from, [current] + queue0, previous0, depth0)
    ensures Discovered(adjacency, from, previous0, depth0) && Grown(current, queue0, depth0, queue0, depth0)
  {
    GrownStart(current, queue0, depth0);
  }

  lemma AllHandled(adjacency: Adjacency, depth: map<nat, nat>, current: nat, neighbours: seq<nat>)
    requires current in depth && neighbours == if current in adjacency then adjacency[current] else []
    requires forall i :: 0 <= i < |neighbours| ==> neighbours[i] in depth && depth[neighbours[i]] <= depth[current] + 1
    ensures Processed(adjacency, depth, current)
  {
  }

  lemma InUniverse(adjacency: Adjacency, from: nat, a: nat, b: nat)
    requires a in adjacency && b in adjacency[a]
    ensures b in Universe(adjacency, from)
  {
  }

  lemma SearchFacts(
    adjacency: Adjacency, from: nat, current: nat, queue0: seq<nat>, depth0: map<nat, nat>,
    queue: seq<nat>, previous: map<nat, nat>, depth: map<nat, nat>)
    requires Discovered(adjacency, from, previous, depth) && Grown(current, queue0, depth0, queue, depth)
    ensures previous.Keys == depth.Keys && depth0.Keys <= depth.Keys
    ensures current in depth0 && depth[current] == depth0[current]
    ensures depth.Keys == depth0.Keys ==> queue == queue0
  {
  }

  /**
   * The shortest path between two qubits, or nothing when they are disconnected. Vertices enter the queue once,
   * so the search ends; the path is simple and no walk is shorter.
   */
  method ShortestPath(adjacency: Adjacency, from: nat, to: nat) returns (result: Option<seq<nat>>)
    ensures result.Some? ==> IsShortest(adjacency, result.value, from, to)
    ensures result.None? <==> !Connected(adjacency, from, to)
  {
    hide QueueByDepth, OthersProcessed, Discovered, Processed, IsWalk, Frontier, Universe, Edge, IsShortest, Connected;
    if from == to {
      AlreadyThere(adjacency, from);
      return Some([from]);
    }
    if from !in adjacency || to !in adjacency {
      NotOperational(adjacency, from, to);
      return None;
    }
    var previous: map<nat, nat> := map[from := from];
    var queue := [from];
    ghost var depth: map<nat, nat> := map[from := 0];
    ghost var universe := Universe(adjacency, from);
    FrontierStart(adjacency, from);
    while |queue| > 0
      invariant Frontier(adjacency, from, queue, previous, depth)
      invariant to !in depth && depth.Keys <= universe
      decreases universe - depth.Keys, |queue|
    {
      var current := queue[0];
      ghost var whole, depth0 := queue, depth;
      assert queue == [current] + queue[1..];
      FrontierFacts(adjacency, from, queue, previous, depth);
      var hit;
      hit, queue, previous, depth := Expand(adjacency, from, to, current, queue[1..], previous, depth, universe);
      if hit {
        var path := WalkBack(adjacency, from, to, previous, depth);
        NoShorterWalk(adjacency, from, to, depth0, depth0[current], path);
        return Some(path);
      }
    }
    FrontierFacts(adjacency, from, queue, previous, depth);
    SearchExhausted(adjacency, from, to, previous, depth);
    return None;
  }

  ghost predicate Connected(adjacency: Adjacency, from: nat, to: nat) {
    exists walk :: IsWalk(adjacency, walk, from, to)
  }

  lemma AlreadyThere(adjacency: Adjacency, from: nat)
    ensures IsShortest(adjacency, [from], from, from) && Connected(adjacency, from, from)
  {
    assert IsWalk(adjacency, [from], from, from);
  }

  lemma NotOperational(adjacency: Adjacency, from: nat, to: nat)
    requires from != to && (from !in adjacency || to !in adjacency)
    ensures !Connected(adjacency, from, to)
  {
    forall walk ensures !IsWalk(adjacency, walk, from, to) {
      if IsWalk(adjacency, walk, from, to) {
        EndsOperational(adjacency, walk, from, to);
      }
    }
  }

  lemma NoShorterWalk(adjacency: Adjacency, from: nat, to: nat, depth: map<nat, nat>, limit: nat, path: seq<nat>)
    requires from in depth && depth[from] == 0
    requires forall v: nat :: v in depth && depth[v] < limit ==> Processed(adjacency, depth, v)
    requires to !in depth && IsWalk(adjacency, path, from, to) && |path| == limit + 2
    requires forall i, j :: 0 <= i < j < |path| ==> path[i] != path[j]
    ensures IsShortest(adjacency, path, from, to) && Connected(adjacency, from, to)
  {
    hide IsWalk, Processed;
    forall walk | IsWalk(adjacency, walk, from, to) ensures |path| <= |walk| {
      NotFoundSoon(adjacency, from, depth, limit, walk, to);
    }
  }

  lemma SearchExhausted(adjacency: Adjacency, from: nat, to: nat, previous: map<nat, nat>, depth: map<nat, nat>)
    requires Frontier(adjacency, from, [], previous, depth) && to !in depth
    ensures !Connected(adjacency, from, to)
  {
    AllProcessed(adjacency, from, previous, depth);
    hide IsWalk, Processed;
    forall walk ensures !IsWalk(adjacency, walk, from, to) {
      if IsWalk(adjacency, walk, from, to) {
        WalkStays(adjacency, from, depth, walk, to);
      }
    }
  }

  lemma NotFoundSoon(adjacency: Adjacency, from: nat, depth: map<nat, nat>, limit: nat, walk: seq<nat>, to: nat)
    requires from in depth && depth[from] == 0
    requires forall v: nat :: v in depth && depth[v] < limit ==> Processed(adjacency, depth, v)
    requires IsWalk(adjacency, walk, from, to) && to !in depth
    ensures |walk| - 1 > limit
  {
    if |walk| - 1 <= limit {
      WalkFound(adjacency, from, depth, limit, walk, to);
    }
  }

  lemma EndsOperational(adjacency: Adjacency, walk: seq<nat>, from: nat, to: nat)
    requires from != to && IsWalk(adjacency, walk, from, to)
    ensures from in adjacency && to in adjacency
  {
    var n := |walk| - 2;
    assert Edge(adjacency, walk[0], walk[0 + 1]) && Edge(adjacency, walk[n], walk[n + 1]);
  }

  lemma FrontierStart(adjacency: Adjacency, from: nat)
    ensures Frontier(adjacency, from, [from], map[from := from], map[from := 0])
    ensures from in Universe(adjacency, from)
  {
  }

  /** While the front of the queue is handled, everything shallower than it has been processed. */
  lemma FrontierFacts(
    adjacency: Adjacency, from: nat, queue: seq<nat>, previous: map<nat, nat>, depth: map<nat, nat>)
    requires Frontier(adjacency, from, queue, previous, depth)
    ensures from in depth && depth[from] == 0
    ensures |queue| > 0 ==> queue[0] in depth
    ensures |queue| > 0 ==> forall v: nat :: v in depth && depth[v] < depth[queue[0]] ==> Processed(adjacency, depth, v)
  {
    hide Processed;
  }

  lemma AllProcessed(adjacency: Adjacency, from: nat, previous: map<nat, nat>, depth: map<nat, nat>)
    requires Frontier(adjacency, from, [], previous, depth)
    ensures forall v: nat :: v in depth ==> Processed(adjacency, depth, v)
  {
    hide Processed;
  }
}
