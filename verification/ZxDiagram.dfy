/**
 * Graph-like ZX diagrams as values, and the linear map a diagram stands for (src/engine/zx-graph.ts).
 *
 * Phases are real numbers in units of pi, as in the source. The pair (cos(pi a), sin(pi a)) is a function
 * `chi` of the angle about which only the quarter-turn law is assumed, and 1/sqrt(2) is any nonzero real.
 */
module ZxDiagram {
  import opened ComplexNumbers
  import opened Summation

  datatype Spider = Spider(id: int, phase: real)

  type Edge = (int, int)

  datatype Diagram = Diagram(spiders: seq<Spider>, edges: seq<Edge>, inputs: seq<int>, outputs: seq<int>)

  // ---------------------------------------------------------------- angles

  /** An angle a quarter turn (pi/2) further on. */
  function QuarterOn(a: real): real {
    a + 0.5
  }

  /** What is used of chi(a) = (cos(pi a), sin(pi a)): it starts at 1 and a quarter turn multiplies by i. */
  ghost predicate QuarterTurns(chi: real -> Complex) {
    && chi(0.0) == ONE
    && forall a: real {:trigger QuarterOn(a)} :: chi(QuarterOn(a)) == Mul(I, chi(a))
  }

  /** i^floor(2a): exact on quarter turns, constant in between. */
  function StepTurn(a: real): Complex {
    IPow((2.0 * a).Floor)
  }

  /** The law has a model, so no theorem about a `chi` below is vacuous. */
  lemma QuarterTurnsHasModel()
    ensures QuarterTurns(StepTurn)
  {
    forall a: real ensures StepTurn(QuarterOn(a)) == Mul(I, StepTurn(a)) {
      FloorTurns(a);
    }
  }

  lemma FloorTurns(a: real)
    ensures IPow((2.0 * QuarterOn(a)).Floor) == Mul(I, IPow((2.0 * a).Floor))
  {
    hide Mul;
    FloorQuarterOn(a);
    IPowStep((2.0 * a).Floor);
  }

  lemma FloorQuarterOn(a: real)
    ensures (2.0 * QuarterOn(a)).Floor == (2.0 * a).Floor + 1
  {
    assert 2.0 * QuarterOn(a) == 2.0 * a + 1.0;
  }

  /** Turning by k quarter turns, in either direction, multiplies by i^k. */
  lemma {:induction false} Turn(chi: real -> Complex, a: real, k: int)
    requires QuarterTurns(chi)
    ensures chi(a + 0.5 * (k as real)) == Mul(IPow(k), chi(a))
    decreases if k < 0 then -k else k
  {
    hide Mul;
    if k > 0 {
      Turn(chi, a, k - 1);
      OneQuarter(chi, a, k - 1);
      IPowNext(k - 1, chi(a));
    } else if k < 0 {
      Turn(chi, a, k + 1);
      OneQuarter(chi, a, k);
      var z := chi(a + 0.5 * (k as real));
      IPowNext(k, chi(a));
      MulICancel(z, Mul(IPow(k), chi(a)));
    } else {
      assert a + 0.5 * (k as real) == a;
      MulOne(chi(a));
    }
  }

  lemma OneQuarter(chi: real -> Complex, a: real, k: int)
    requires QuarterTurns(chi)
    ensures chi(a + 0.5 * ((k + 1) as real)) == Mul(I, chi(a + 0.5 * (k as real)))
  {
    assert QuarterOn(a + 0.5 * (k as real)) == a + 0.5 * ((k + 1) as real);
  }

  /** Brings a phase into [0, 2). In exact arithmetic the snapping to quarters is the identity. */
  function NormalisePhase(phase: real): (value: real)
    ensures 0.0 <= value < 2.0
  {
    phase - 2.0 * ((phase / 2.0).Floor as real)
  }

  // ---------------------------------------------------------------- structure

  function Ids(spiders: seq<Spider>): (ids: seq<int>)
    ensures |ids| == |spiders| && forall i :: 0 <= i < |ids| ==> ids[i] == spiders[i].id
  {
    seq(|spiders|, i requires 0 <= i < |spiders| => spiders[i].id)
  }

  predicate SameKey(e: Edge, a: int, b: int) {
    (e.0 == a && e.1 == b) || (e.0 == b && e.1 == a)
  }

  predicate HasEdge(edges: seq<Edge>, a: int, b: int) {
    exists i :: 0 <= i < |edges| && SameKey(edges[i], a, b)
  }

  predicate NoRepeats(edges: seq<Edge>) {
    forall i, j :: 0 <= i < j < |edges| ==> !SameKey(edges[i], edges[j].0, edges[j].1)
  }

  predicate EdgesWithin(edges: seq<Edge>, ids: set<int>) {
    forall i :: 0 <= i < |edges| ==> edges[i].0 in ids && edges[i].1 in ids && edges[i].0 != edges[i].1
  }

  /** A simple graph whose boundary is made of its own spiders. */
  predicate Simple(d: Diagram) {
    && Distinct(Ids(d.spiders))
    && NoRepeats(d.edges)
    && EdgesWithin(d.edges, ToSet(Ids(d.spiders)))
    && (forall i :: 0 <= i < |d.inputs| ==> d.inputs[i] in Ids(d.spiders))
    && (forall i :: 0 <= i < |d.outputs| ==> d.outputs[i] in Ids(d.spiders))
  }

  predicate IsInterior(d: Diagram, id: int) {
    id !in d.inputs && id !in d.outputs
  }

  // ---------------------------------------------------------------- the linear map

  /** The summed phase of the spiders whose value is 1. */
  function Angle(spiders: seq<Spider>, ones: set<int>): real {
    if |spiders| == 0 then 0.0
    else
      var last := spiders[|spiders| - 1];
      Angle(spiders[..|spiders| - 1], ones) + if last.id in ones then last.phase else 0.0
  }

  /** Each Hadamard edge contributes the edge factor, negated when both its ends are 1. */
  function Magnitude(edges: seq<Edge>, ones: set<int>, edgeFactor: real): real {
    if |edges| == 0 then 1.0
    else
      var (a, b) := edges[|edges| - 1];
      Magnitude(edges[..|edges| - 1], ones, edgeFactor) * edgeFactor * if a in ones && b in ones then -1.0 else 1.0
  }

  /** Boundary spiders are pinned by the requested matrix entry. */
  predicate Consistent(d: Diagram, ins: seq<bool>, outs: seq<bool>, ones: set<int>)
    requires |ins| == |d.inputs| && |outs| == |d.outputs|
  {
    && (forall i :: 0 <= i < |ins| ==> (d.inputs[i] in ones) == ins[i])
    && (forall i :: 0 <= i < |outs| ==> (d.outputs[i] in ones) == outs[i])
  }

  /** One term of the sum: magnitude times (cos, sin) of the angle, or nothing when the boundary disagrees. */
  function Contribution(
    chi: real -> Complex, edgeFactor: real, d: Diagram, ins: seq<bool>, outs: seq<bool>, ones: set<int>): Complex
    requires |ins| == |d.inputs| && |outs| == |d.outputs|
  {
    if Consistent(d, ins, outs, ones)
    then Scale(Magnitude(d.edges, ones, edgeFactor), chi(Angle(d.spiders, ones)))
    else ZERO
  }

  /** Entry (outs, ins) of the dense matrix of a diagram. */
  ghost function Entry(chi: real -> Complex, edgeFactor: real, d: Diagram, ins: seq<bool>, outs: seq<bool>): Complex
    requires |ins| == |d.inputs| && |outs| == |d.outputs|
  {
    Sum(Ids(d.spiders), {}, ones => Contribution(chi, edgeFactor, d, ins, outs, ones))
  }

  /** Two diagrams with the same arity describe the same map up to a nonzero scalar. */
  ghost predicate SameMap(chi: real -> Complex, edgeFactor: real, d: Diagram, d': Diagram)
    requires |d.inputs| == |d'.inputs| && |d.outputs| == |d'.outputs|
  {
    exists c: Complex :: c != ZERO && ScaledMap(chi, edgeFactor, d, c, d')
  }

  /** Every matrix entry of `d` is c times that of `d'`. */
  ghost predicate ScaledMap(chi: real -> Complex, edgeFactor: real, d: Diagram, c: Complex, d': Diagram)
    requires |d.inputs| == |d'.inputs| && |d.outputs| == |d'.outputs|
  {
    forall ins: seq<bool>, outs: seq<bool> :: |ins| == |d.inputs| && |outs| == |d.outputs| ==>
      Entry(chi, edgeFactor, d, ins, outs) == Mul(c, Entry(chi, edgeFactor, d', ins, outs))
  }

  // ---------------------------------------------------------------- factoring the magnitude

  function Power(r: real, n: nat): real {
    if n == 0 then 1.0 else Power(r, n - 1) * r
  }

  lemma {:induction false} PowerNonZero(r: real, n: nat)
    requires r != 0.0
    ensures Power(r, n) != 0.0
  {
    if n > 0 { PowerNonZero(r, n - 1); }
  }

  /** How many edges have both ends set to 1. */
  function ActiveEdges(edges: seq<Edge>, ones: set<int>): int {
    if |edges| == 0 then 0
    else
      var (a, b) := edges[|edges| - 1];
      ActiveEdges(edges[..|edges| - 1], ones) + if a in ones && b in ones then 1 else 0
  }

  function Sign(k: int): real {
    if k % 2 == 0 then 1.0 else -1.0
  }

  lemma {:induction false} MagnitudeFactors(edges: seq<Edge>, ones: set<int>, r: real)
    ensures Magnitude(edges, ones, r) == Power(r, |edges|) * Sign(ActiveEdges(edges, ones))
  {
    if |edges| > 0 {
      var rest := edges[..|edges| - 1];
      MagnitudeFactors(rest, ones, r);
      var p, s, s' := Power(r, |rest|), Sign(ActiveEdges(rest, ones)), Sign(ActiveEdges(edges, ones));
      var (a, b) := edges[|edges| - 1];
      var t := if a in ones && b in ones then -1.0 else 1.0;
      assert s' == s * t;
      assert p * s * r * t == (p * r) * (s * t);
    }
  }

  /** The exponent form of a term without the edge factors: i^(2 * active edges) * chi(angle). */
  function Term(chi: real -> Complex, d: Diagram, ones: set<int>): Complex {
    Mul(IPow(2 * ActiveEdges(d.edges, ones)), chi(Angle(d.spiders, ones)))
  }

  function PinnedTerm(chi: real -> Complex, d: Diagram, ins: seq<bool>, outs: seq<bool>, ones: set<int>): Complex
    requires |ins| == |d.inputs| && |outs| == |d.outputs|
  {
    if Consistent(d, ins, outs, ones) then Term(chi, d, ones) else ZERO
  }

  /** The matrix entry without the edge factors. */
  ghost function Amplitude(chi: real -> Complex, d: Diagram, ins: seq<bool>, outs: seq<bool>): Complex
    requires |ins| == |d.inputs| && |outs| == |d.outputs|
  {
    Sum(Ids(d.spiders), {}, ones => PinnedTerm(chi, d, ins, outs, ones))
  }

  lemma ContributionFactors(
    chi: real -> Complex, r: real, d: Diagram, ins: seq<bool>, outs: seq<bool>, ones: set<int>)
    requires |ins| == |d.inputs| && |outs| == |d.outputs|
    ensures Contribution(chi, r, d, ins, outs, ones)
         == Mul(Complex(Power(r, |d.edges|), 0.0), PinnedTerm(chi, d, ins, outs, ones))
  {
    MagnitudeFactors(d.edges, ones, r);
    var k, p, z := ActiveEdges(d.edges, ones), Power(r, |d.edges|), chi(Angle(d.spiders, ones));
    assert (2 * k) % 4 == if k % 2 == 0 then 0 else 2;
    assert Term(chi, d, ones) == Scale(Sign(k), z);
    assert (p * Sign(k)) * z.re == p * (Sign(k) * z.re) && (p * Sign(k)) * z.im == p * (Sign(k) * z.im);
  }

  lemma EntryFactors(chi: real -> Complex, r: real, d: Diagram, ins: seq<bool>, outs: seq<bool>)
    requires |ins| == |d.inputs| && |outs| == |d.outputs|
    ensures Entry(chi, r, d, ins, outs) == Mul(Complex(Power(r, |d.edges|), 0.0), Amplitude(chi, d, ins, outs))
  {
    var c := Complex(Power(r, |d.edges|), 0.0);
    var f := (ones: set<int>) => Contribution(chi, r, d, ins, outs, ones);
    var g := (ones: set<int>) => PinnedTerm(chi, d, ins, outs, ones);
    forall ones ensures f(ones) == Mul(c, g(ones)) {
      ContributionFactors(chi, r, d, ins, outs, ones);
    }
    SumScaled(Ids(d.spiders), {}, f, c, g);
  }

  /** A scalar between the unscaled amplitudes is a scalar between the matrices. */
  lemma AmplitudesGiveMap(chi: real -> Complex, r: real, d: Diagram, c: Complex, d': Diagram)
    requires r != 0.0 && c != ZERO
    requires |d.inputs| == |d'.inputs| && |d.outputs| == |d'.outputs|
    requires forall ins: seq<bool>, outs: seq<bool> :: |ins| == |d.inputs| && |outs| == |d.outputs| ==>
      Amplitude(chi, d, ins, outs) == Mul(c, Amplitude(chi, d', ins, outs))
    ensures SameMap(chi, r, d, d')
  {
    var p, p' := Power(r, |d.edges|), Power(r, |d'.edges|);
    PowerNonZero(r, |d.edges|);
    PowerNonZero(r, |d'.edges|);
    var q := Complex(p / p', 0.0);
    var c' := Mul(q, c);
    assert p == (p / p') * p' && p / p' != 0.0;
    MulNonZero(q, c);
    forall ins: seq<bool>, outs: seq<bool> | |ins| == |d.inputs| && |outs| == |d.outputs|
      ensures Entry(chi, r, d, ins, outs) == Mul(c', Entry(chi, r, d', ins, outs))
    {
      EntryFactors(chi, r, d, ins, outs);
      EntryFactors(chi, r, d', ins, outs);
      Rescale(p, p', c, Amplitude(chi, d', ins, outs));
    }
    assert ScaledMap(chi, r, d, c', d');
  }

  lemma Rescale(p: real, p': real, c: Complex, z: Complex)
    requires p' != 0.0
    ensures Mul(Complex(p, 0.0), Mul(c, z)) == Mul(Mul(Complex(p / p', 0.0), c), Mul(Complex(p', 0.0), z))
  {
    var q := p / p';
    var cp, cq, cp' := Complex(p, 0.0), Complex(q, 0.0), Complex(p', 0.0);
    assert q * p' == p;
    assert Mul(cq, cp') == cp;
    MulAssoc(cq, c, Mul(cp', z));
    MulAssoc(c, cp', z);
    MulComm(c, cp');
    MulAssoc(cp', c, z);
    MulAssoc(cq, cp', Mul(c, z));
  }

  lemma SameMapRefl(chi: real -> Complex, r: real, d: Diagram)
    ensures SameMap(chi, r, d, d)
  {
    assert ScaledMap(chi, r, d, ONE, d);
  }

  lemma SameMapTrans(chi: real -> Complex, r: real, d: Diagram, d': Diagram, d'': Diagram)
    requires |d.inputs| == |d'.inputs| == |d''.inputs| && |d.outputs| == |d'.outputs| == |d''.outputs|
    requires SameMap(chi, r, d, d') && SameMap(chi, r, d', d'')
    ensures SameMap(chi, r, d, d'')
  {
    var c: Complex :| c != ZERO && ScaledMap(chi, r, d, c, d');
    var c': Complex :| c' != ZERO && ScaledMap(chi, r, d', c', d'');
    MulNonZero(c, c');
    forall ins: seq<bool>, outs: seq<bool> | |ins| == |d.inputs| && |outs| == |d.outputs|
      ensures Entry(chi, r, d, ins, outs) == Mul(Mul(c, c'), Entry(chi, r, d'', ins, outs))
    {
      assert Entry(chi, r, d, ins, outs) == Mul(c, Entry(chi, r, d', ins, outs));
      MulAssoc(c, c', Entry(chi, r, d'', ins, outs));
    }
    assert ScaledMap(chi, r, d, Mul(c, c'), d'');
  }
}
