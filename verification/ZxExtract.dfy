/** Circuit extraction from a diagram reduced to its boundary (src/engine/zx-graph.ts:535-638). */
module ZxExtract {
  import opened Bits
  import opened ComplexNumbers
  import opened Summation
  import opened ZxDiagram
  import opened ZxRewrite
  import opened ZxSoundness
  import opened ZxRuns
  import ZxMatrix

  /** P(pi * phase) on a qubit, or CZ on two. */
  datatype Gate = P(qubit: nat, phase: real) | Cz(first: nat, second: nat)

  datatype Extraction = Refused | Extracted(gates: seq<Gate>, qubits: nat)

  /** The qubit of a boundary spider: a map filled in order, so the last position wins; the length when absent. */
  function QubitOf(inputs: seq<int>, id: int): (q: nat)
    ensures q <= |inputs|
    ensures q < |inputs| ==> inputs[q] == id
    ensures q == |inputs| <==> id !in inputs
  {
    if |inputs| == 0 then 0
    else
      var n := |inputs| - 1;
      assert inputs == inputs[..n] + [inputs[n]];
      if inputs[n] == id then n
      else
        var q := QubitOf(inputs[..n], id);
        if q == n then n + 1 else q
  }

  function PhaseGates(spiders: seq<Spider>, inputs: seq<int>): seq<Gate> {
    if |spiders| == 0 then []
    else
      var rest, last := PhaseGates(spiders[..|spiders| - 1], inputs), spiders[|spiders| - 1];
      if NormalisePhase(last.phase) == 0.0 then rest
      else rest + [P(QubitOf(inputs, last.id), NormalisePhase(last.phase))]
  }

  function CzGates(edges: seq<Edge>, inputs: seq<int>): seq<Gate> {
    if |edges| == 0 then []
    else
      var last := edges[|edges| - 1];
      CzGates(edges[..|edges| - 1], inputs) + [Cz(QubitOf(inputs, last.0), QubitOf(inputs, last.1))]
  }

  /** A diagram whose spiders are exactly its boundary, inputs and outputs in the same order. */
  predicate BoundaryOnly(d: Diagram) {
    && |d.inputs| > 0
    && d.outputs == d.inputs
    && |d.spiders| == |d.inputs|
    && forall k :: 0 <= k < |d.spiders| ==> d.spiders[k].id in d.inputs
  }

  predicate EdgesOnBoundary(d: Diagram) {
    forall k :: 0 <= k < |d.edges| ==> d.edges[k].0 in d.inputs && d.edges[k].1 in d.inputs
  }

  function Extract(d: Diagram): Extraction {
    if BoundaryOnly(d) && EdgesOnBoundary(d)
    then Extracted(PhaseGates(d.spiders, d.inputs) + CzGates(d.edges, d.inputs), |d.inputs|)
    else Refused
  }

  /** The gate list is built by two loops that push onto it; an edge off the boundary refuses. */
  method ExtractCircuit(d: Diagram) returns (result: Extraction)
    ensures result == Extract(d)
  {
    var width := |d.inputs|;
    if width == 0 || |d.outputs| != width || d.inputs != d.outputs {
      return Refused;
    }
    if |d.spiders| != width || exists k :: 0 <= k < |d.spiders| && d.spiders[k].id !in d.inputs {
      return Refused;
    }
    var gates: seq<Gate> := [];
    for k := 0 to |d.spiders|
      invariant gates == PhaseGates(d.spiders[..k], d.inputs)
    {
      assert d.spiders[..k + 1][..k] == d.spiders[..k];
      var phase := NormalisePhase(d.spiders[k].phase);
      if phase != 0.0 {
        gates := gates + [P(QubitOf(d.inputs, d.spiders[k].id), phase)];
      }
    }
    assert d.spiders[..|d.spiders|] == d.spiders;
    ghost var phases := gates;
    for k := 0 to |d.edges|
      invariant gates == phases + CzGates(d.edges[..k], d.inputs)
      invariant forall j :: 0 <= j < k ==> d.edges[j].0 in d.inputs && d.edges[j].1 in d.inputs
    {
      assert d.edges[..k + 1][..k] == d.edges[..k];
      var first, second := QubitOf(d.inputs, d.edges[k].0), QubitOf(d.inputs, d.edges[k].1);
      if first == width || second == width {
        return Refused;
      }
      gates := gates + [Cz(first, second)];
    }
    assert d.edges[..|d.edges|] == d.edges;
    result := Extracted(gates, width);
  }

  // ---------------------------------------------------------------- the circuit's own matrix

  predicate On(bits: seq<bool>, q: nat) {
    q < |bits| && bits[q]
  }

  /** Every gate is diagonal, so a basis state only accumulates an angle (in units of pi). */
  function CircuitAngle(gates: seq<Gate>, bits: seq<bool>): real {
    if |gates| == 0 then 0.0
    else
      CircuitAngle(gates[..|gates| - 1], bits)
        + match gates[|gates| - 1]
          case P(q, phase) => if On(bits, q) then phase else 0.0
          case Cz(a, b) => if On(bits, a) && On(bits, b) then 1.0 else 0.0
  }

  function CircuitEntry(chi: real -> Complex, gates: seq<Gate>, ins: seq<bool>, outs: seq<bool>): Complex {
    if ins == outs then chi(CircuitAngle(gates, ins)) else ZERO
  }

  // ---------------------------------------------------------------- proof

  lemma {:induction false} AngleOfConcat(gates: seq<Gate>, more: seq<Gate>, bits: seq<bool>)
    ensures CircuitAngle(gates + more, bits) == CircuitAngle(gates, bits) + CircuitAngle(more, bits)
  {
    if |more| == 0 {
      assert gates + more == gates;
    } else {
      var all := gates + more;
      assert all[..|all| - 1] == gates + more[..|more| - 1];
      AngleOfConcat(gates, more[..|more| - 1], bits);
    }
  }

  /** The set of boundary spiders a bit pattern switches on. */
  function Pattern(inputs: seq<int>, bits: seq<bool>): set<int>
    requires |bits| == |inputs|
  {
    set q | 0 <= q < |inputs| && bits[q] :: inputs[q]
  }

  lemma PatternAt(inputs: seq<int>, bits: seq<bool>, id: int)
    requires |bits| == |inputs| && Distinct(inputs) && id in inputs
    ensures On(bits, QubitOf(inputs, id)) <==> id in Pattern(inputs, bits)
  {
    var q := QubitOf(inputs, id);
    if id in Pattern(inputs, bits) {
      var p :| 0 <= p < |inputs| && bits[p] && inputs[p] == id;
      assert p == q;
    }
  }

  lemma {:induction false} PhaseGatesAngle(spiders: seq<Spider>, inputs: seq<int>, bits: seq<bool>) returns (t: int)
    requires |bits| == |inputs| && Distinct(inputs) && forall k :: 0 <= k < |spiders| ==> spiders[k].id in inputs
    ensures CircuitAngle(PhaseGates(spiders, inputs), bits)
         == Angle(spiders, Pattern(inputs, bits)) + 2.0 * (t as real)
  {
    hide Pattern, QubitOf;
    t := 0;
    if |spiders| > 0 {
      var rest, last := spiders[..|spiders| - 1], spiders[|spiders| - 1];
      t := PhaseGatesAngle(rest, inputs, bits);
      PatternAt(inputs, bits, last.id);
      var gates := PhaseGates(rest, inputs);
      var phase := NormalisePhase(last.phase);
      assert (gates + [P(QubitOf(inputs, last.id), phase)])[..|gates|] == gates;
      if last.id in Pattern(inputs, bits) {
        t := t - (last.phase / 2.0).Floor;
      }
    }
  }

  lemma {:induction false} CzGatesAngle(edges: seq<Edge>, inputs: seq<int>, bits: seq<bool>)
    requires |bits| == |inputs| && Distinct(inputs)
    requires forall k :: 0 <= k < |edges| ==> edges[k].0 in inputs && edges[k].1 in inputs
    ensures CircuitAngle(CzGates(edges, inputs), bits) == ActiveEdges(edges, Pattern(inputs, bits)) as real
  {
    hide Pattern, QubitOf;
    if |edges| > 0 {
      var rest, last := edges[..|edges| - 1], edges[|edges| - 1];
      CzGatesAngle(rest, inputs, bits);
      PatternAt(inputs, bits, last.0);
      PatternAt(inputs, bits, last.1);
      var gates := CzGates(rest, inputs);
      assert CzGates(edges, inputs)[..|gates|] == gates;
    }
  }

  lemma {:induction false} SetNoLarger(ids: seq<int>)
    ensures |ToSet(ids)| <= |ids|
    ensures |ToSet(ids)| == |ids| ==> Distinct(ids)
  {
    if |ids| == 0 {
      assert ToSet(ids) == {};
    } else {
      var rest, last := ids[..|ids| - 1], ids[|ids| - 1];
      assert ids == rest + [last];
      assert ToSet(ids) == ToSet(rest) + {last};
      SetNoLarger(rest);
      assert last in ToSet(rest) ==> ToSet(rest) + {last} == ToSet(rest);
      assert last in rest ==> last in ToSet(rest);
    }
  }

  lemma {:induction false} DistinctSetSize(ids: seq<int>)
    requires Distinct(ids)
    ensures |ToSet(ids)| == |ids|
  {
    if |ids| == 0 {
      assert ToSet(ids) == {};
    } else {
      var rest, last := ids[..|ids| - 1], ids[|ids| - 1];
      assert ids == rest + [last];
      assert ToSet(ids) == ToSet(rest) + {last};
      DistinctSetSize(rest);
      assert last !in rest;
    }
  }

  lemma SubsetSize(a: set<int>, b: set<int>)
    requires a <= b
    ensures |a| <= |b| && (|a| == |b| ==> a == b)
  {
    var c := b - a;
    assert b == a + c;
  }

  /** On a boundary-only diagram the inputs list every spider exactly once. */
  lemma BoundaryIsSpiders(d: Diagram)
    requires Simple(d) && BoundaryOnly(d)
    ensures Distinct(d.inputs) && ToSet(d.inputs) == ToSet(Ids(d.spiders))
  {
    var ids := Ids(d.spiders);
    DistinctSetSize(ids);
    SetNoLarger(d.inputs);
    forall x | x in ToSet(ids) ensures x in ToSet(d.inputs) {
      var k :| 0 <= k < |ids| && ids[k] == x;
      assert d.spiders[k].id == x;
    }
    SubsetSize(ToSet(ids), ToSet(d.inputs));
  }

  /** Exactly one assignment of the boundary spiders meets a bit pattern. */
  lemma OnlyPattern(d: Diagram, ins: seq<bool>, outs: seq<bool>, o: set<int>)
    requires Distinct(d.inputs) && d.outputs == d.inputs && |ins| == |outs| == |d.inputs| && o <= ToSet(d.inputs)
    ensures Consistent(d, ins, outs, o) <==> ins == outs && o == Pattern(d.inputs, ins)
  {
    if Consistent(d, ins, outs, o) {
      forall i | 0 <= i < |ins| ensures ins[i] == outs[i] {
        assert (d.inputs[i] in o) == ins[i] && (d.outputs[i] in o) == outs[i];
      }
      forall x ensures x in o <==> x in Pattern(d.inputs, ins) {
        if x in o {
          var i :| 0 <= i < |d.inputs| && d.inputs[i] == x;
          assert ins[i];
        }
      }
    }
    if ins == outs && o == Pattern(d.inputs, ins) {
      forall i | 0 <= i < |ins| ensures (d.inputs[i] in o) == ins[i] {
        if d.inputs[i] in o {
          var p :| 0 <= p < |d.inputs| && ins[p] && d.inputs[p] == d.inputs[i];
          assert p == i;
        }
      }
    }
  }

  lemma PatternTerm(chi: real -> Complex, d: Diagram, ins: seq<bool>)
    requires QuarterTurns(chi) && Simple(d) && Extract(d).Extracted? && |ins| == |d.inputs|
    ensures Term(chi, d, Pattern(d.inputs, ins)) == chi(CircuitAngle(Extract(d).gates, ins))
  {
    hide Pattern, Mul, IPow, CircuitAngle, PhaseGates, CzGates, Angle, ActiveEdges, Simple;
    var on := Pattern(d.inputs, ins);
    BoundaryIsSpiders(d);
    AngleOfConcat(PhaseGates(d.spiders, d.inputs), CzGates(d.edges, d.inputs), ins);
    var t := PhaseGatesAngle(d.spiders, d.inputs, ins);
    CzGatesAngle(d.edges, d.inputs, ins);
    var e := ActiveEdges(d.edges, on);
    var k := 2 * e + 4 * t;
    assert CircuitAngle(Extract(d).gates, ins) == Angle(d.spiders, on) + 0.5 * (k as real);
    Turn(chi, Angle(d.spiders, on), k);
    IPowCongruent(k, 2 * e);
  }

  /** The extracted circuit has the diagram's matrix, entry by entry, up to the edge factors. */
  lemma ExtractionExact(chi: real -> Complex, r: real, d: Diagram, ins: seq<bool>, outs: seq<bool>)
    requires QuarterTurns(chi) && Simple(d) && Extract(d).Extracted?
    requires |ins| == |d.inputs| && |outs| == |d.outputs|
    ensures Entry(chi, r, d, ins, outs)
         == Mul(Complex(Power(r, |d.edges|), 0.0), CircuitEntry(chi, Extract(d).gates, ins, outs))
  {
    hide Term, Mul, Consistent, Pattern, CircuitAngle, Power, PhaseGates, CzGates;
    var ids, on := Ids(d.spiders), Pattern(d.inputs, ins);
    var f := (ones: set<int>) => PinnedTerm(chi, d, ins, outs, ones);
    EntryFactors(chi, r, d, ins, outs);
    BoundaryIsSpiders(d);
    forall o | Between({}, ids, o) ensures Consistent(d, ins, outs, o) <==> ins == outs && o == on {
      OnlyPattern(d, ins, outs, o);
    }
    SumSingle(ids, {}, f, on);
    PatternWithin(d.inputs, ins);
    assert Between({}, ids, on);
    PatternTerm(chi, d, ins);
  }

  lemma PatternWithin(inputs: seq<int>, bits: seq<bool>)
    requires |bits| == |inputs|
    ensures Pattern(inputs, bits) <= ToSet(inputs)
  {
  }

  /**
   * Simplify then extract, end to end: when a run of rewrites ends in a boundary-only diagram, the extracted
   * circuit has the original diagram's matrix up to one nonzero scalar.
   */
  lemma SimplifyThenExtract(chi: real -> Complex, r: real, d: Diagram, steps: seq<Step>, d': Diagram)
    requires QuarterTurns(chi) && r != 0.0 && Simple(d) && IsRun(d, steps, d') && Extract(d').Extracted?
    ensures exists c: Complex :: c != ZERO && SameAsCircuit(chi, r, d, c, Extract(d').gates)
  {
    hide Mul, Entry, CircuitEntry, Simple, IsRun, Extract;
    RunKeeps(chi, r, d, steps, d');
    var c: Complex :| c != ZERO && ScaledMap(chi, r, d, c, d');
    var p := Complex(Power(r, |d'.edges|), 0.0);
    PowerNonZero(r, |d'.edges|);
    MulNonZero(c, p);
    forall ins: seq<bool>, outs: seq<bool> | |ins| == |d.inputs| && |outs| == |d.outputs|
      ensures Entry(chi, r, d, ins, outs) == Mul(Mul(c, p), CircuitEntry(chi, Extract(d').gates, ins, outs))
    {
      ExtractionExact(chi, r, d', ins, outs);
      MulAssoc(c, p, CircuitEntry(chi, Extract(d').gates, ins, outs));
    }
    assert SameAsCircuit(chi, r, d, Mul(c, p), Extract(d').gates);
  }

  ghost predicate SameAsCircuit(chi: real -> Complex, r: real, d: Diagram, c: Complex, gates: seq<Gate>) {
    forall ins: seq<bool>, outs: seq<bool> :: |ins| == |d.inputs| && |outs| == |d.outputs| ==>
      Entry(chi, r, d, ins, outs) == Mul(c, CircuitEntry(chi, gates, ins, outs))
  }

  /** Every spider is on the one boundary that serves as inputs and outputs. */
  predicate AllOnSharedBoundary(d: Diagram) {
    && |d.inputs| > 0 && d.outputs == d.inputs && Distinct(d.inputs)
    && forall id :: id in Ids(d.spiders) ==> !IsInterior(d, id)
  }

  lemma BoundaryExtracts(d: Diagram)
    requires Simple(d) && AllOnSharedBoundary(d)
    ensures Extract(d).Extracted?
  {
    var ids := Ids(d.spiders);
    assert ToSet(ids) == ToSet(d.inputs);
    DistinctSetSize(ids);
    DistinctSetSize(d.inputs);
    forall k | 0 <= k < |d.spiders| ensures d.spiders[k].id in d.inputs {
      assert ids[k] in ids;
    }
    forall k | 0 <= k < |d.edges| ensures d.edges[k].0 in d.inputs && d.edges[k].1 in d.inputs {
      assert d.edges[k].0 in ToSet(ids) && d.edges[k].1 in ToSet(ids);
    }
  }

  /** For a simple diagram, a refusal means exactly that something lies off the shared boundary. */
  lemma ExtractsExactlyBoundaryOnly(d: Diagram)
    requires Simple(d)
    ensures Extract(d).Extracted? <==> AllOnSharedBoundary(d)
  {
    if Extract(d).Extracted? {
      BoundaryIsSpiders(d);
      forall id | id in Ids(d.spiders) ensures id in d.inputs {
        assert id in ToSet(Ids(d.spiders));
      }
    }
    if AllOnSharedBoundary(d) {
      BoundaryExtracts(d);
    }
  }

  // ---------------------------------------------------------------- the matrix of the extracted circuit

  lemma {:induction false} EqualBits(n: nat, x: nat, y: nat)
    requires x < Pow2(n) && y < Pow2(n) && forall i :: 0 <= i < n ==> BitAt(x, i) == BitAt(y, i)
    ensures x == y
  {
    if n > 0 {
      forall i | 0 <= i < n - 1 ensures BitAt(x / 2, i) == BitAt(y / 2, i) {
        assert BitAt(x, i + 1) == BitAt(x / 2, i) && BitAt(y, i + 1) == BitAt(y / 2, i);
      }
      assert BitAt(x, 0) == BitAt(y, 0);
      EqualBits(n - 1, x / 2, y / 2);
    }
  }

  lemma SameBitList(n: nat, x: nat, y: nat)
    requires x < Pow2(n) && y < Pow2(n)
    ensures ZxMatrix.BitList(n, x) == ZxMatrix.BitList(n, y) <==> x == y
  {
    hide Pow2, BitAt;
    if ZxMatrix.BitList(n, x) == ZxMatrix.BitList(n, y) {
      forall i | 0 <= i < n ensures BitAt(x, i) == BitAt(y, i) {
        assert ZxMatrix.BitList(n, x)[i] == ZxMatrix.BitList(n, y)[i];
      }
      EqualBits(n, x, y);
    }
  }

  /** The angle one basis state collects, gate by gate. */
  method BasisAngle(gates: seq<Gate>, qubits: nat, basis: nat) returns (angle: real)
    ensures angle == CircuitAngle(gates, ZxMatrix.BitList(qubits, basis))
  {
    hide BitAt;
    var bits := ZxMatrix.BitList(qubits, basis);
    angle := 0.0;
    for i := 0 to |gates|
      invariant angle == CircuitAngle(gates[..i], bits)
    {
      assert gates[..i + 1][..i] == gates[..i];
      match gates[i] {
        case P(qubit, phase) => if On(bits, qubit) { angle := angle + phase; }
        case Cz(first, second) => if On(bits, first) && On(bits, second) { angle := angle + 1.0; }
      }
    }
    assert gates[..|gates|] == gates;
  }

  /** The dense unitary: the identity with every diagonal entry replaced by the phase of its basis state. */
  method ExtractedToMatrix(chi: real -> Complex, gates: seq<Gate>, qubits: nat) returns (matrix: array2<Complex>)
    ensures matrix.Length0 == Pow2(qubits) && matrix.Length1 == Pow2(qubits)
    ensures forall row, column :: 0 <= row < Pow2(qubits) && 0 <= column < Pow2(qubits) ==>
      matrix[row, column]
      == CircuitEntry(chi, gates, ZxMatrix.BitList(qubits, column), ZxMatrix.BitList(qubits, row))
  {
    hide CircuitAngle, Pow2;
    var size := Pow2(qubits);
    matrix := new Complex[size, size]((row, column) => if row == column then ONE else ZERO);
    for basis := 0 to size
      invariant forall row, column :: 0 <= row < size && 0 <= column < size && row != column ==>
        matrix[row, column] == ZERO
      invariant forall k :: 0 <= k < basis ==> matrix[k, k] == chi(CircuitAngle(gates, ZxMatrix.BitList(qubits, k)))
    {
      var angle := BasisAngle(gates, qubits, basis);
      matrix[basis, basis] := chi(angle);
    }
    forall row, column | 0 <= row < size && 0 <= column < size
      ensures matrix[row, column]
           == CircuitEntry(chi, gates, ZxMatrix.BitList(qubits, column), ZxMatrix.BitList(qubits, row))
    {
      SameBitList(qubits, column, row);
    }
  }
}
