/** The rules of the peephole optimizer inside a whole circuit. */
module PeepholeSteps {
  import opened Options
  import opened Circuits
  import opened ComplexNumbers
  import opened Semantics
  import opened OperatorLaws
  import opened GateLaws
  import opened PeepholeRules
  import opened Refinement
  import opened PeepholeSoundness

  /**
   * No gate whose name fixes its angle carries one parameter all the same. The optimizer would take such a parameter
   * for an angle when it fuses across commuting gates, while the engine ignores it.
   */
  predicate NoStrayAngles(operations: seq<Operation>) {
    forall i :: 0 <= i < |operations| && IsFusible(operations[i]) ==> IsRotation(GateOf(operations[i]).name)
  }

  lemma GateIsItself(operation: Operation)
    requires IsGate(operation)
    ensures operation == WithGate(GateOf(operation))
  {
  }

  // ---------------------------------------------------------------- pairs

  /** Replacing the gates at i and j, where the one at j slides back to i, by a block that refines the pair. */
  lemma ReplacePair(trig: Trig, operations: seq<Operation>, i: nat, j: nat, after: seq<Operation>)
    requires i < j < |operations| && IsGate(operations[i]) && IsGate(operations[j])
    requires forall m :: i < m < j ==> Slides(trig, operations[m], GateOf(operations[j]))
    requires RefinesUpToPhase(trig, [operations[i], operations[j]], after)
    ensures RefinesUpToPhase(trig, operations, operations[..i] + after + (operations[i + 1..j] + operations[j + 1..]))
  {
    hide Refines, Slides, IsGate, GateOf;
    var left, block, right := operations[..i + 1], operations[i + 1..j], operations[j + 1..];
    var gate := GateOf(operations[j]);
    var g := [WithGate(gate)];
    assert g == [operations[j]] by { GateIsItself(operations[j]); }
    forall m | 0 <= m < |block| ensures Slides(trig, block[m], gate) {
      assert block[m] == operations[i + 1 + m];
    }
    Slide(trig, block, gate);
    RefinesInContext(trig, 1.0, left, block + g, g + block, right);
    assert left + (block + g) + right == operations;
    var pair := [operations[i], operations[j]];
    var gathered := operations[..i] + pair + (block + right);
    assert left + (g + block) + right == gathered;
    assert RefinesUpToPhase(trig, operations, gathered);
    InContextUpToPhase(trig, operations[..i], pair, after, block + right);
    PhaseTrans(trig, operations, gathered, operations[..i] + after + (block + right));
  }

  lemma InContextUpToPhase(
    trig: Trig, left: seq<Operation>, before: seq<Operation>, after: seq<Operation>, right: seq<Operation>)
    requires RefinesUpToPhase(trig, before, after)
    ensures RefinesUpToPhase(trig, left + before + right, left + after + right)
  {
    hide Refines;
    var s: real :| IsSign(s) && Refines(trig, s, before, after);
    RefinesInContext(trig, s, left, before, after, right);
  }

  /** The two gates a fusion replaces refine what it puts in their place. */
  lemma FusedPair(trig: Trig, gate: Gate, other: Gate)
    requires TrigLaws(trig) && IsRotation(gate.name) && other.name == gate.name && other.qubits == gate.qubits
    requires HasAngle(gate) && HasAngle(other)
    ensures var total := NormalizeAngle(trig.pi, gate.parameters[0].angle + other.parameters[0].angle);
      RefinesUpToPhase(trig, [WithGate(gate), WithGate(other)],
                       if total == 0.0 then [] else [WithGate(Rotated(gate, total))])
  {
    hide NormalizeAngle, Refines, IsRotation;
    var a, b := gate.parameters[0].angle, other.parameters[0].angle;
    assert gate.parameters == [Bound(a)] && other == Rotated(gate, b);
    var fused := Rotated(gate, a + b);
    FuseLocal(trig, gate, other, a, b);
    assert IsSign(1.0);
    assert RefinesUpToPhase(trig, [WithGate(gate), WithGate(other)], [WithGate(fused)]);
    if NormalizeAngle(trig.pi, a + b) == 0.0 {
      ZeroLocal(trig, fused, a + b);
      PhaseTrans(trig, [WithGate(gate), WithGate(other)], [WithGate(fused)], []);
    } else {
      var s := WrapLocal(trig, fused, a + b);
      var wrapped := Rotated(fused, NormalizeAngle(trig.pi, a + b));
      assert wrapped == Rotated(gate, NormalizeAngle(trig.pi, a + b));
      assert RefinesUpToPhase(trig, [WithGate(fused)], [WithGate(wrapped)]);
      PhaseTrans(trig, [WithGate(gate), WithGate(other)], [WithGate(fused)], [WithGate(wrapped)]);
    }
  }

  lemma FusionKeepsMeaning(trig: Trig, operations: seq<Operation>, i: nat, j: nat)
    requires TrigLaws(trig) && i < j < |operations| && IsGate(operations[i]) && IsGate(operations[j])
    requires var gate, other := GateOf(operations[i]), GateOf(operations[j]);
      && IsRotation(gate.name) && other.name == gate.name && other.qubits == gate.qubits
      && HasAngle(gate) && HasAngle(other)
    requires forall m :: i < m < j ==> Slides(trig, operations[m], GateOf(operations[j]))
    ensures RefinesUpToPhase(trig, operations, Fused(trig.pi, operations, i, j))
  {
    PositivePi(trig);
    hide NormalizeAngle, RefinesUpToPhase, Slides, TrigLaws;
    var gate, other := GateOf(operations[i]), GateOf(operations[j]);
    var total := NormalizeAngle(trig.pi, gate.parameters[0].angle + other.parameters[0].angle);
    var after := if total == 0.0 then [] else [WithGate(Rotated(gate, total))];
    GateIsItself(operations[i]);
    GateIsItself(operations[j]);
    FusedPair(trig, gate, other);
    ReplacePair(trig, operations, i, j, after);
    FusedInPlace(trig.pi, operations, i, j, total, after);
  }

  lemma FusedInPlace(pi: real, operations: seq<Operation>, i: nat, j: nat, total: real, after: seq<Operation>)
    requires pi > 0.0 && i < j < |operations| && IsGate(operations[i]) && IsGate(operations[j])
    requires HasAngle(GateOf(operations[i])) && HasAngle(GateOf(operations[j]))
    requires var gate, other := GateOf(operations[i]), GateOf(operations[j]);
      && total == NormalizeAngle(pi, gate.parameters[0].angle + other.parameters[0].angle)
      && after == if total == 0.0 then [] else [WithGate(Rotated(gate, total))]
    ensures Fused(pi, operations, i, j) == operations[..i] + after + (operations[i + 1..j] + operations[j + 1..])
  {
    hide NormalizeAngle;
  }

  lemma PositivePi(trig: Trig)
    requires TrigLaws(trig)
    ensures trig.pi > 0.0
  {
  }

  lemma BetweenSlides(trig: Trig, operations: seq<Operation>, i: nat, j: nat, gate: Gate)
    requires i < |operations| && IsNext(operations, i, gate.qubits, j)
    ensures forall m :: i < m < j ==> Slides(trig, operations[m], gate)
  {
    hide Slides;
    forall m | i < m < j ensures Slides(trig, operations[m], gate) {
      UntouchedSlides(trig, operations[m], gate);
    }
  }

  lemma AcrossSlides(trig: Trig, operations: seq<Operation>, i: nat, j: nat)
    requires i < j < |operations| && IsFusible(operations[i]) && Reaches(operations, i, j)
    requires SameRotation(operations[i], operations[j])
    ensures forall m :: i < m < j ==> Slides(trig, operations[m], GateOf(operations[j]))
  {
    hide Slides, CommutesOn;
    forall m | i < m < j ensures Slides(trig, operations[m], GateOf(operations[j])) {
      SlidesOnAxis(trig, operations[m], GateOf(operations[j]));
    }
  }

  lemma DropKeepsMeaning(trig: Trig, operations: seq<Operation>, i: nat)
    requires i < |operations| && RefinesUpToPhase(trig, [operations[i]], [])
    ensures RefinesUpToPhase(trig, operations, Without(operations, i))
  {
    hide RefinesUpToPhase;
    InContextUpToPhase(trig, operations[..i], [operations[i]], [], operations[i + 1..]);
    assert operations[..i] + [operations[i]] + operations[i + 1..] == operations;
    assert operations[..i] + [] + operations[i + 1..] == Without(operations, i);
  }

  lemma CancelKeepsMeaning(trig: Trig, operations: seq<Operation>, i: nat, j: nat)
    requires TrigLaws(trig) && Partners(operations, i, j)
    requires GateOf(operations[j]).name == GateOf(operations[i]).name && IsSelfInverse(GateOf(operations[i]).name)
    ensures RefinesUpToPhase(trig, operations, Without(Without(operations, j), i))
  {
    hide Slides, Refines, TrigLaws;
    CancelLocal(trig, GateOf(operations[i]), GateOf(operations[j]));
    GateIsItself(operations[i]);
    GateIsItself(operations[j]);
    assert IsSign(1.0);
    assert RefinesUpToPhase(trig, [operations[i], operations[j]], []);
    BetweenSlides(trig, operations, i, j, GateOf(operations[j]));
    ReplacePair(trig, operations, i, j, []);
    assert Without(Without(operations, j), i)
        == operations[..i] + [] + (operations[i + 1..j] + operations[j + 1..]);
  }

  /** h ... g ... h, where the closing h slides back to g and the opening one forward to it. */
  lemma ConjugationKeepsMeaning(trig: Trig, operations: seq<Operation>, i: nat, j: nat, k: nat)
    requires TrigLaws(trig) && Partners(operations, i, j) && Partners(operations, j, k)
    requires |GateOf(operations[i]).qubits| == 1 && Conjugate(GateOf(operations[j]).name).Some?
    requires GateOf(operations[i]).name == H && GateOf(operations[k]).name == H
    ensures var gate := GateOf(operations[j]);
      RefinesUpToPhase(trig, operations,
        Without(Without(operations, k)[j := WithGate(gate.(name := Conjugate(gate.name).value))], i))
  {
    hide Slides, Refines;
    var opening, gate, closing := GateOf(operations[i]), GateOf(operations[j]), GateOf(operations[k]);
    var flipped := gate.(name := Conjugate(gate.name).value);
    var g1, g2, g3 := [WithGate(opening)], [WithGate(gate)], [WithGate(closing)];
    GateIsItself(operations[i]); GateIsItself(operations[j]); GateIsItself(operations[k]);
    ConjugateLocal(trig, opening, gate, closing);
    BetweenSlides(trig, operations, i, j, opening);
    BetweenSlides(trig, operations, j, k, closing);
    hide TrigLaws, IsNext, Conjugate, IsGate, GateOf, Without;
    var left, first, second, right :=
      operations[..i], operations[i + 1..j], operations[j + 1..k], operations[k + 1..];
    forall m | 0 <= m < |first| ensures Slides(trig, first[m], opening) { assert first[m] == operations[i + 1 + m]; }
    forall m | 0 <= m < |second| ensures Slides(trig, second[m], closing) { assert second[m] == operations[j + 1 + m]; }
    Slide(trig, first, opening);
    Slide(trig, second, closing);
    assert g1 + g2 + g3 == [WithGate(opening), WithGate(gate), WithGate(closing)];
    Regroupings(trig, left, first, second, right, g1, g2, g3, [WithGate(flipped)]);
    Pieces(operations, i, j, k, WithGate(flipped));
  }

  lemma Pieces(operations: seq<Operation>, i: nat, j: nat, k: nat, flipped: Operation)
    requires i < j < k < |operations|
    ensures operations[..i] + [operations[i]] + operations[i + 1..j] + [operations[j]] + operations[j + 1..k]
            + [operations[k]] + operations[k + 1..] == operations
    ensures |Without(operations, k)| == |operations| - 1
    ensures Without(Without(operations, k)[j := flipped], i)
         == operations[..i] + operations[i + 1..j] + [flipped] + operations[j + 1..k] + operations[k + 1..]
  {
  }

  lemma Regroupings(
    trig: Trig, left: seq<Operation>, first: seq<Operation>, second: seq<Operation>, right: seq<Operation>,
    g1: seq<Operation>, g2: seq<Operation>, g3: seq<Operation>, after: seq<Operation>)
    requires Refines(trig, 1.0, g1 + first, first + g1) && Refines(trig, 1.0, second + g3, g3 + second)
    requires Refines(trig, 1.0, g1 + g2 + g3, after)
    ensures RefinesUpToPhase(trig, left + g1 + first + g2 + second + g3 + right, left + first + after + second + right)
  {
    hide Refines;
    var start := left + g1 + first + g2 + second + g3 + right;
    var closed := left + g1 + first + g2 + g3 + second + right;
    var met := left + first + g1 + g2 + g3 + second + right;
    var done := left + first + after + second + right;
    RefinesInContext(trig, 1.0, left + g1 + first + g2, second + g3, g3 + second, right);
    assert (left + g1 + first + g2) + (second + g3) + right == start;
    assert (left + g1 + first + g2) + (g3 + second) + right == closed;
    RefinesInContext(trig, 1.0, left, g1 + first, first + g1, g2 + g3 + second + right);
    assert left + (g1 + first) + (g2 + g3 + second + right) == closed;
    assert left + (first + g1) + (g2 + g3 + second + right) == met;
    RefinesInContext(trig, 1.0, left + first, g1 + g2 + g3, after, second + right);
    assert (left + first) + (g1 + g2 + g3) + (second + right) == met;
    assert (left + first) + after + (second + right) == done;
    RefinesTrans(trig, 1.0, 1.0, start, closed, met);
    RefinesTrans(trig, 1.0, 1.0, start, met, done);
  }

  // ---------------------------------------------------------------- every rule

  /**
   * Fusing across commuting gates adds the parameters of any gate of the axis. That is right for the rotations, and
   * for two Z or two X gates whose parameters happen to cancel; PeepholeExactness shows it is wrong for the others.
   */
  predicate Faithful(pi: real, operations: seq<Operation>, r: Rewrite)
    requires pi > 0.0 && Enabled(pi, operations, r)
  {
    r.FuseAcross? ==>
      var gate, other := GateOf(operations[r.at]), GateOf(operations[r.other]);
      || IsRotation(gate.name)
      || (gate.name in {Z, X} && NormalizeAngle(pi, gate.parameters[0].angle + other.parameters[0].angle) == 0.0)
  }

  lemma NoStrayAnglesIsFaithful(pi: real, operations: seq<Operation>, r: Rewrite)
    requires pi > 0.0 && Enabled(pi, operations, r) && NoStrayAngles(operations)
    ensures Faithful(pi, operations, r)
  {
    hide NormalizeAngle, Reaches, IsNext;
  }

  /** One application of a rule keeps the meaning of the whole circuit up to global phase. */
  lemma RuleKeepsMeaning(trig: Trig, operations: seq<Operation>, r: Rewrite)
    requires TrigLaws(trig) && trig.pi > 0.0
    requires Enabled(trig.pi, operations, r) && Faithful(trig.pi, operations, r)
    ensures RefinesUpToPhase(trig, operations, Rewritten(trig.pi, operations, r))
  {
    hide RefinesUpToPhase, NormalizeAngle, Slides, TrigLaws, Reaches, IsNext, CommutesOn, Without, Fused, Faithful;
    var gate := GateOf(operations[r.at]);
    GateIsItself(operations[r.at]);
    match r {
      case DropIdentity(i) =>
        IdentityLocal(trig, gate);
        ExactIsUpToPhase(trig, [WithGate(gate)], []);
        DropKeepsMeaning(trig, operations, i);
      case DropZero(i) =>
        assert gate.parameters == [Bound(gate.parameters[0].angle)];
        ZeroLocal(trig, gate, gate.parameters[0].angle);
        DropKeepsMeaning(trig, operations, i);
      case FuseAcross(i, j) =>
        AcrossKeepsMeaning(trig, operations, i, j);
      case CancelPair(i, j) =>
        CancelKeepsMeaning(trig, operations, i, j);
      case ConjugateH(i, j, k) =>
        ConjugationKeepsMeaning(trig, operations, i, j, k);
      case FuseAdjacent(i, j) =>
        BetweenSlides(trig, operations, i, j, GateOf(operations[j]));
        FusionKeepsMeaning(trig, operations, i, j);
    }
  }

  lemma AcrossKeepsMeaning(trig: Trig, operations: seq<Operation>, i: nat, j: nat)
    requires TrigLaws(trig) && trig.pi > 0.0
    requires Enabled(trig.pi, operations, FuseAcross(i, j)) && Faithful(trig.pi, operations, FuseAcross(i, j))
    ensures RefinesUpToPhase(trig, operations, Fused(trig.pi, operations, i, j))
  {
    hide RefinesUpToPhase, NormalizeAngle, Slides, TrigLaws, Reaches;
    var gate, other := GateOf(operations[i]), GateOf(operations[j]);
    AcrossSlides(trig, operations, i, j);
    if IsRotation(gate.name) {
      FusionKeepsMeaning(trig, operations, i, j);
    } else {
      GateIsItself(operations[i]);
      GateIsItself(operations[j]);
      CancelLocal(trig, gate, other);
      ExactIsUpToPhase(trig, [WithGate(gate), WithGate(other)], []);
      ReplacePair(trig, operations, i, j, []);
      assert Fused(trig.pi, operations, i, j) == operations[..i] + [] + (operations[i + 1..j] + operations[j + 1..]);
    }
  }

  lemma ExactIsUpToPhase(trig: Trig, before: seq<Operation>, after: seq<Operation>)
    requires Refines(trig, 1.0, before, after)
    ensures RefinesUpToPhase(trig, before, after)
  {
    assert IsSign(1.0);
  }

  lemma WithoutKeepsAngles(operations: seq<Operation>, i: nat)
    requires NoStrayAngles(operations) && i < |operations|
    ensures NoStrayAngles(Without(operations, i))
  {
    var rest := Without(operations, i);
    forall m | 0 <= m < |rest| && IsFusible(rest[m]) ensures IsRotation(GateOf(rest[m]).name) {
      assert rest[m] == operations[if m < i then m else m + 1];
    }
  }

  lemma UpdateKeepsAngles(operations: seq<Operation>, i: nat, gate: Gate)
    requires NoStrayAngles(operations) && i < |operations|
    requires IsFusible(WithGate(gate)) ==> IsRotation(gate.name)
    ensures NoStrayAngles(operations[i := WithGate(gate)])
  {
  }

  lemma FusionKeepsAngles(pi: real, operations: seq<Operation>, i: nat, j: nat)
    requires NoStrayAngles(operations) && pi > 0.0 && i < j < |operations|
    requires IsGate(operations[i]) && IsGate(operations[j])
    requires IsRotation(GateOf(operations[i]).name) && HasAngle(GateOf(operations[i]))
      && HasAngle(GateOf(operations[j]))
    ensures NoStrayAngles(Fused(pi, operations, i, j))
  {
    hide NormalizeAngle, NoStrayAngles;
    var gate := GateOf(operations[i]);
    var total := NormalizeAngle(pi, gate.parameters[0].angle + GateOf(operations[j]).parameters[0].angle);
    WithoutKeepsAngles(operations, j);
    WithoutKeepsAngles(Without(operations, j), i);
    UpdateKeepsAngles(Without(operations, j), i, gate.(parameters := [Bound(total)]));
  }

  /** The rules never introduce a stray angle. */
  lemma RuleKeepsAngles(pi: real, operations: seq<Operation>, r: Rewrite)
    requires NoStrayAngles(operations) && pi > 0.0 && Enabled(pi, operations, r)
    ensures NoStrayAngles(Rewritten(pi, operations, r))
  {
    hide NormalizeAngle, Reaches, IsNext, Without, Fused;
    match r {
      case DropIdentity(i) => WithoutKeepsAngles(operations, i);
      case DropZero(i) => WithoutKeepsAngles(operations, i);
      case FuseAcross(i, j) => FusionKeepsAngles(pi, operations, i, j);
      case CancelPair(i, j) =>
        WithoutKeepsAngles(operations, j);
        WithoutLength(operations, j);
        WithoutKeepsAngles(Without(operations, j), i);
      case ConjugateH(i, j, k) =>
        var gate := GateOf(operations[j]);
        var flipped := gate.(name := Conjugate(gate.name).value);
        FlippedAngles(operations, j);
        WithoutKeepsAngles(operations, k);
        WithoutLength(operations, k);
        UpdateKeepsAngles(Without(operations, k), j, flipped);
        WithoutKeepsAngles(Without(operations, k)[j := WithGate(flipped)], i);
      case FuseAdjacent(i, j) => FusionKeepsAngles(pi, operations, i, j);
    }
  }

  lemma WithoutLength(operations: seq<Operation>, i: nat)
    requires i < |operations|
    ensures |Without(operations, i)| == |operations| - 1
  {
  }

  lemma FlippedAngles(operations: seq<Operation>, j: nat)
    requires NoStrayAngles(operations) && j < |operations| && IsGate(operations[j])
    requires Conjugate(GateOf(operations[j]).name).Some?
    ensures var gate := GateOf(operations[j]);
      var flipped := gate.(name := Conjugate(gate.name).value);
      IsFusible(WithGate(flipped)) ==> IsRotation(flipped.name)
  {
    assert IsFusible(operations[j]) ==> IsRotation(GateOf(operations[j]).name);
  }
}
