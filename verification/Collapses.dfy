/** What a measurement and a reset leave behind (src/engine/statevector.ts:228-269, 405-423). */
module Collapses {
  import opened Options
  import opened Circuits
  import opened ComplexNumbers
  import opened Semantics
  import opened OperatorLaws
  import opened RealPowers
  import opened Statevector
  import opened Trajectories
  import Sums = Summation

  // ---------------------------------------------------------------- along a record of outcomes

  /** After a reset the qubit is 0: where its bit is 1 there is nothing, elsewhere what the drawn bit held. */
  lemma ResetClears(trig: Trig, outcome: nat -> bool, qubit: nat, w: World, k: set<int>)
    ensures var next := StepSimple(trig, outcome, Reset(qubit), w);
      && next.Some? && next.value.clbits == w.clbits && next.value.draws == w.draws + 1
      && next.value.state(k)
         == if (qubit as int) in k then ZERO else w.state(if outcome(w.draws) then k + {qubit as int} else k)
  {
    hide After;
    AfterFlip(qubit, Project(w.state, qubit, true), k);
  }

  /**
   * A measurement writes its outcome to one classical bit; the same outcome again changes nothing, the other leaves
   * none.
   */
  lemma MeasureFixes(trig: Trig, outcome: nat -> bool, qubit: nat, clbit: nat, w: World, k: set<int>, bit: nat)
    ensures var next := StepSimple(trig, outcome, Measure(qubit, clbit), w);
      && next.Some? && next.value.draws == w.draws + 1
      && next.value.clbits(bit) == (if bit == clbit then outcome(w.draws) else w.clbits(bit))
      && Project(next.value.state, qubit, outcome(w.draws))(k) == next.value.state(k)
      && Project(next.value.state, qubit, !outcome(w.draws))(k) == ZERO
      && Add(next.value.state(k), Project(w.state, qubit, !outcome(w.draws))(k)) == w.state(k)
  {
    AddZero(w.state(k));
  }

  // ---------------------------------------------------------------- in a run

  lemma NothingWeighsNothing(n: nat, psi: State)
    requires forall k: set<int> :: psi(k) == ZERO
    ensures Weight(n, psi) == 0.0
  {
    hide NormSq;
    Nothing();
    Sums.SumSingle(Qubits(n), {}, Weights(psi), {}) by { QubitsApart(n); }
    assert Weights(psi)({}) == ZERO;
  }

  lemma QubitsApart(n: nat)
    ensures Sums.Distinct(Qubits(n))
  {
  }

  lemma Nothing()
    ensures NormSq(ZERO) == 0.0
  {
  }

  /** A collapsed state has all its weight on the outcome drawn. */
  lemma CollapsedIsFixed(sqrt: real -> real, n: nat, psi: State, qubit: nat, one: bool)
    requires IsSquareRoot(sqrt) && Collapsed(sqrt, n, psi, qubit, one).Some?
    ensures var collapsed := Collapsed(sqrt, n, psi, qubit, one).value;
      && Weight(n, Project(collapsed, qubit, !one)) == 0.0 && Weight(n, Project(collapsed, qubit, one)) == 1.0
  {
    hide IsSquareRoot, Weight;
    var branch := Project(psi, qubit, one);
    var weight := Weight(n, branch);
    assert weight >= 0.0 by { WeightIsNonNegative(n, branch); }
    RootPositive(sqrt, weight);
    var r := 1.0 / sqrt(weight);
    var collapsed := Scaled(r, branch);
    ScaledZero(r);
    NothingWeighsNothing(n, Project(collapsed, qubit, !one));
    forall k: set<int> ensures Project(collapsed, qubit, one)(k) == Scale(r, branch(k)) { }
    WeightScaled(n, r, branch, Project(collapsed, qubit, one));
    RootCancels(sqrt, weight);
  }

  lemma WeightIsNonNegative(n: nat, psi: State)
    ensures Weight(n, psi) >= 0.0
  {
  }

  lemma ScaledZero(r: real)
    ensures Scale(r, ZERO) == ZERO
  {
  }

  /** Measured again at once, a qubit gives the same bit, whatever number is drawn. */
  lemma MeasuredAgain(
    trig: Trig, sqrt: real -> real, random: nat -> real, n: nat, qubit: nat, first: nat, second: nat, w: World)
    requires IsSquareRoot(sqrt) && IsRandom(random)
    requires RunBody(trig, sqrt, random, n, Measure(qubit, first), w).Some?
    ensures var once := RunBody(trig, sqrt, random, n, Measure(qubit, first), w).value;
      var twice := RunBody(trig, sqrt, random, n, Measure(qubit, second), once);
      twice.Some? && twice.value.clbits(second) == once.clbits(first)
  {
    hide IsSquareRoot, Collapsed, Weight, Project;
    var one := Drawn(random, n, w, qubit);
    var once := RunBody(trig, sqrt, random, n, Measure(qubit, first), w).value;
    CollapsedIsFixed(sqrt, n, w.state, qubit, one);
    assert Drawn(random, n, once, qubit) == one;
    KeepsWeight(sqrt, n, once.state, qubit, one);
  }

  lemma KeepsWeight(sqrt: real -> real, n: nat, psi: State, qubit: nat, one: bool)
    requires IsSquareRoot(sqrt) && Weight(n, Project(psi, qubit, one)) != 0.0
    ensures Collapsed(sqrt, n, psi, qubit, one).Some?
  {
    hide IsSquareRoot, Weight, Project;
  }

  /** Measured after a reset, a qubit gives 0, whatever numbers are drawn. */
  lemma MeasuredAfterReset(
    trig: Trig, sqrt: real -> real, random: nat -> real, n: nat, qubit: nat, clbit: nat, w: World)
    requires IsSquareRoot(sqrt) && IsRandom(random) && qubit < n
    requires RunBody(trig, sqrt, random, n, Reset(qubit), w).Some?
    ensures var once := RunBody(trig, sqrt, random, n, Reset(qubit), w).value;
      var twice := RunBody(trig, sqrt, random, n, Measure(qubit, clbit), once);
      twice.Some? && !twice.value.clbits(clbit)
  {
    hide IsSquareRoot, Weight, Project, Collapsed, After;
    var one := Drawn(random, n, w, qubit);
    var collapsed := Collapsed(sqrt, n, w.state, qubit, one).value;
    var once := RunBody(trig, sqrt, random, n, Reset(qubit), w).value;
    CollapsedIsFixed(sqrt, n, w.state, qubit, one);
    if one { FlippedWeights(n, qubit, collapsed); }
    assert Weight(n, Project(once.state, qubit, true)) == 0.0 && Weight(n, Project(once.state, qubit, false)) == 1.0;
    assert !Drawn(random, n, once, qubit);
    KeepsWeight(sqrt, n, once.state, qubit, false);
  }

  /** Flipping a qubit exchanges the weights of its two outcomes. */
  lemma FlippedWeights(n: nat, qubit: nat, psi: State)
    requires qubit < n
    ensures var flipped := After(Matrix(FLIP, {}, qubit), psi);
      && Weight(n, Project(flipped, qubit, true)) == Weight(n, Project(psi, qubit, false))
      && Weight(n, Project(flipped, qubit, false)) == Weight(n, Project(psi, qubit, true))
  {
    hide Weight, After;
    var flip: Operator := Matrix(FLIP, {}, qubit);
    var flipped := After(flip, psi);
    forall b: bool ensures Weight(n, Project(flipped, qubit, b)) == Weight(n, Project(psi, qubit, !b)) {
      FlipKeepsWeight(n, qubit, Project(psi, qubit, !b));
      forall k: set<int> ensures Project(flipped, qubit, b)(k) == Scale(1.0, After(flip, Project(psi, qubit, !b))(k)) {
        AfterFlip(qubit, psi, k);
        AfterFlip(qubit, Project(psi, qubit, !b), k);
        ScaleOne(After(flip, Project(psi, qubit, !b))(k));
      }
      WeightScaled(n, 1.0, After(flip, Project(psi, qubit, !b)), Project(flipped, qubit, b));
    }
  }
}
