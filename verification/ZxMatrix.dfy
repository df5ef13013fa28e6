/**
 * The dense evaluator of src/engine/zx-graph.ts:100-165: nested loops over matrix entries and over every integer
 * `assignment`, with spider i reading bit i. It computes the sum over assignments that the rewrites are proved
 * against.
 */
module ZxMatrix {
  import opened Bits
  import opened Counting
  import opened ComplexNumbers
  import opened Summation
  import opened ZxDiagram
  import opened ZxRewrite

  const MAX_SPIDERS := 14

  function BitList(width: nat, k: nat): (bits: seq<bool>)
    ensures |bits| == width && forall i :: 0 <= i < width ==> bits[i] == BitAt(k, i)
  {
    seq(width, i requires 0 <= i < width => BitAt(k, i))
  }

  /** Spider `ids[p]` reads bit p of the assignment. */
  lemma ValueAt(ids: seq<int>, p: nat, assignment: nat)
    requires Distinct(ids) && p < |ids|
    ensures ids[p] in OnesOf(ids, assignment) <==> BitAt(assignment, p)
  {
    if ids[p] in OnesOf(ids, assignment) {
      var i :| 0 <= i < |ids| && BitAt(assignment, i) && ids[i] == ids[p];
      assert i == p;
    }
  }

  /** One boundary against the requested bits, stopping at the first disagreement. */
  method Agrees(d: Diagram, boundary: seq<int>, bits: nat, assignment: nat) returns (consistent: bool)
    requires Distinct(Ids(d.spiders)) && forall i :: 0 <= i < |boundary| ==> boundary[i] in Ids(d.spiders)
    ensures var ones := OnesOf(Ids(d.spiders), assignment);
      consistent <==> forall i :: 0 <= i < |boundary| ==> (boundary[i] in ones) == BitAt(bits, i)
  {
    var ids := Ids(d.spiders);
    for index := 0 to |boundary|
      invariant forall i :: 0 <= i < index ==> (boundary[i] in OnesOf(ids, assignment)) == BitAt(bits, i)
    {
      var p := IndexOf(ids, boundary[index]);
      assert boundary[index] in ids;
      ValueAt(ids, p, assignment);
      if BitAt(assignment, p) != BitAt(bits, index) {
        return false;
      }
    }
    return true;
  }

  lemma EntryAsSum(
    chi: real -> Complex, edgeFactor: real, d: Diagram, ins: seq<bool>, outs: seq<bool>, f: set<int> -> Complex)
    requires |ins| == |d.inputs| && |outs| == |d.outputs|
    requires forall ones :: f(ones) == Contribution(chi, edgeFactor, d, ins, outs, ones)
    ensures Entry(chi, edgeFactor, d, ins, outs) == Sum(Ids(d.spiders), {}, f)
  {
    hide Contribution;
    SumCongruent(Ids(d.spiders), {}, ones => Contribution(chi, edgeFactor, d, ins, outs, ones), f);
  }

  /** One matrix entry: the loop over assignments. */
  method MatrixEntry(chi: real -> Complex, edgeFactor: real, d: Diagram, inputBits: nat, outputBits: nat)
    returns (sum: Complex)
    requires Simple(d)
    ensures sum == Entry(chi, edgeFactor, d, BitList(|d.inputs|, inputBits), BitList(|d.outputs|, outputBits))
  {
    hide Add, Scale, Magnitude, Angle, OnesOf, Sum, Entry, Pow2, RangeSum, BitAt;
    var ids := Ids(d.spiders);
    ghost var ins, outs := BitList(|d.inputs|, inputBits), BitList(|d.outputs|, outputBits);
    ghost var f := (ones: set<int>) => Contribution(chi, edgeFactor, d, ins, outs, ones);
    EntryAsSum(chi, edgeFactor, d, ins, outs, f);
    sum := ZERO;
    var assignment := 0;
    RangeStart(ids, f);
    while assignment < Pow2(|ids|)
      invariant 0 <= assignment <= Pow2(|ids|)
      invariant sum == RangeSum(ids, {}, f, assignment)
    {
      ghost var ones := OnesOf(ids, assignment);
      assert {} + ones == ones;
      RangeStep(ids, f, assignment);
      var consistent := Agrees(d, d.inputs, inputBits, assignment);
      if consistent {
        consistent := Agrees(d, d.outputs, outputBits, assignment);
      }
      if consistent {
        var angle := AngleOf(d, assignment);
        var magnitude := MagnitudeOf(edgeFactor, d, assignment);
        sum := Add(sum, Scale(magnitude, chi(angle)));
      } else {
        assert f(ones) == ZERO;
        AddZero(sum);
      }
      assignment := assignment + 1;
    }
    RangeIsSum(ids, {}, f);
  }

  method AngleOf(d: Diagram, assignment: nat) returns (angle: real)
    requires Distinct(Ids(d.spiders))
    ensures angle == Angle(d.spiders, OnesOf(Ids(d.spiders), assignment))
  {
    hide OnesOf;
    var ids := Ids(d.spiders);
    angle := 0.0;
    for k := 0 to |d.spiders|
      invariant angle == Angle(d.spiders[..k], OnesOf(ids, assignment))
    {
      ValueAt(ids, k, assignment);
      assert ids[k] == d.spiders[k].id;
      assert d.spiders[..k + 1][..k] == d.spiders[..k];
      if BitAt(assignment, k) {
        angle := angle + d.spiders[k].phase;
      }
    }
    assert d.spiders[..|d.spiders|] == d.spiders;
  }

  method MagnitudeOf(edgeFactor: real, d: Diagram, assignment: nat) returns (magnitude: real)
    requires Simple(d)
    ensures magnitude == Magnitude(d.edges, OnesOf(Ids(d.spiders), assignment), edgeFactor)
  {
    hide OnesOf;
    var ids := Ids(d.spiders);
    magnitude := 1.0;
    for k := 0 to |d.edges|
      invariant magnitude == Magnitude(d.edges[..k], OnesOf(ids, assignment), edgeFactor)
    {
      var (a, b) := d.edges[k];
      assert a in ToSet(ids) && b in ToSet(ids);
      var p, q := IndexOf(ids, a), IndexOf(ids, b);
      ValueAt(ids, p, assignment);
      ValueAt(ids, q, assignment);
      assert d.edges[..k + 1][..k] == d.edges[..k];
      ghost var before := magnitude;
      magnitude := magnitude * edgeFactor;
      if BitAt(assignment, p) && BitAt(assignment, q) {
        magnitude := magnitude * -1.0;
      }
    }
    assert d.edges[..|d.edges|] == d.edges;
  }

  /** The dense matrix, or a refusal above the spider limit. */
  method GraphToMatrix(chi: real -> Complex, edgeFactor: real, d: Diagram)
    returns (refused: bool, matrix: array2<Complex>)
    requires Simple(d)
    ensures refused <==> |d.spiders| > 14
    ensures !refused ==> matrix.Length0 == Pow2(|d.outputs|) && matrix.Length1 == Pow2(|d.inputs|)
    ensures !refused ==> forall row, column :: 0 <= row < matrix.Length0 && 0 <= column < matrix.Length1 ==>
      matrix[row, column] == Entry(chi, edgeFactor, d, BitList(|d.inputs|, column), BitList(|d.outputs|, row))
  {
    if |d.spiders| > MAX_SPIDERS {
      refused, matrix := true, new Complex[0, 0];
      return;
    }
    hide Entry, Simple, Pow2;
    refused := false;
    matrix := new Complex[Pow2(|d.outputs|), Pow2(|d.inputs|)]((row, column) => ZERO);
    for inputBits := 0 to matrix.Length1
      invariant forall row, column :: 0 <= row < matrix.Length0 && 0 <= column < inputBits ==>
        matrix[row, column] == Entry(chi, edgeFactor, d, BitList(|d.inputs|, column), BitList(|d.outputs|, row))
    {
      for outputBits := 0 to matrix.Length0
        invariant forall row, column :: 0 <= row < matrix.Length0 && 0 <= column < inputBits ==>
          matrix[row, column] == Entry(chi, edgeFactor, d, BitList(|d.inputs|, column), BitList(|d.outputs|, row))
        invariant forall row :: 0 <= row < outputBits ==>
          matrix[row, inputBits] == Entry(chi, edgeFactor, d, BitList(|d.inputs|, inputBits), BitList(|d.outputs|, row))
      {
        matrix[outputBits, inputBits] := MatrixEntry(chi, edgeFactor, d, inputBits, outputBits);
      }
    }
  }
}
