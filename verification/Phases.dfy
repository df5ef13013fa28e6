/**
 * Agreement up to any nonzero number, one for each branch: what a rewriting that is wrong must fail. The sound ones are
 * proved to agree up to one sign, which is less freedom.
 */
module Phases {
  import opened Options
  import opened ComplexNumbers
  import opened Circuits
  import opened Semantics
  import opened OperatorLaws
  import opened PeepholeRules
  import opened Refinement

  ghost predicate Proportional(c: Complex, psi: State, phi: State) {
    forall k: set<int> :: phi(k) == Mul(c, psi(k))
  }

  /** The same state, physically: a global phase, or any other nonzero number, apart. */
  ghost predicate Parallel(psi: State, phi: State) {
    exists c: Complex :: c != ZERO && Proportional(c, psi, phi)
  }

  lemma ProportionalAt(c: Complex, psi: State, phi: State, k: set<int>)
    requires Proportional(c, psi, phi)
    ensures phi(k) == Mul(c, psi(k))
  {
  }

  /** A nonzero amplitude stays one. */
  lemma ParallelAt(psi: State, phi: State, k: set<int>)
    requires Parallel(psi, phi) && psi(k) != ZERO
    ensures phi(k) != ZERO
  {
    hide Mul;
    var c: Complex :| c != ZERO && Proportional(c, psi, phi);
    MulNonZero(c, psi(k));
  }

  lemma SignedIsParallel(s: real, psi: State, phi: State)
    requires IsSign(s) && Signed(s, psi, phi)
    ensures Parallel(psi, phi)
  {
    hide Mul, Scale;
    var c := Complex(s, 0.0);
    assert c != ZERO;
    forall k: set<int> ensures phi(k) == Mul(c, psi(k)) {
      SignedAt(s, psi, phi, k);
      ScaleIsProduct(s, psi(k));
    }
    assert Proportional(c, psi, phi);
  }

  lemma ParallelTrans(psi: State, phi: State, chi: State)
    requires Parallel(psi, phi) && Parallel(phi, chi)
    ensures Parallel(psi, chi)
  {
    hide Mul;
    var c: Complex :| c != ZERO && Proportional(c, psi, phi);
    var d: Complex :| d != ZERO && Proportional(d, phi, chi);
    MulNonZero(d, c);
    forall k: set<int> ensures chi(k) == Mul(Mul(d, c), psi(k)) { MulAssoc(d, c, psi(k)); }
    assert Proportional(Mul(d, c), psi, chi);
  }

  /** Operators are linear. */
  lemma AfterParallel(op: Operator, psi: State, phi: State)
    requires Parallel(psi, phi)
    ensures Parallel(After(op, psi), After(op, phi))
  {
    hide Mul, Add, Coefficient, Source;
    var c: Complex :| c != ZERO && Proportional(c, psi, phi);
    forall k: set<int> ensures After(op, phi)(k) == Mul(c, After(op, psi)(k)) {
      var a, b := Source(op, k, false), Source(op, k, true);
      var p, q := Coefficient(op, k, false), Coefficient(op, k, true);
      Swap3(p, c, psi(a));
      Swap3(q, c, psi(b));
      MulAdd(c, Mul(p, psi(a)), Mul(q, psi(b)));
    }
    assert Proportional(c, After(op, psi), After(op, phi));
  }

  lemma {:induction false} ThroughParallel(operators: seq<Operator>, psi: State, phi: State)
    requires Parallel(psi, phi)
    ensures Parallel(Through(operators, psi), Through(operators, phi))
    decreases |operators|
  {
    hide After, Parallel;
    if |operators| > 0 {
      AfterParallel(operators[0], psi, phi);
      ThroughParallel(operators[1..], After(operators[0], psi), After(operators[0], phi));
    }
  }

  // ---------------------------------------------------------------- circuits

  ghost predicate AgreeUpToFactor(v: Option<World>, w: Option<World>) {
    v.Some? ==>
      w.Some? && w.value.clbits == v.value.clbits && w.value.draws == v.value.draws
        && Parallel(v.value.state, w.value.state)
  }

  /** Where the first runs, the second runs and ends in the same branch up to a nonzero number, any for each branch. */
  ghost predicate RefinesUpToFactors(trig: Trig, before: seq<Operation>, after: seq<Operation>) {
    forall outcome: nat -> bool, w: World ::
      AgreeUpToFactor(Run(trig, outcome, before, w), Run(trig, outcome, after, w))
  }

  lemma RefinesFactorsAt(
    trig: Trig, before: seq<Operation>, after: seq<Operation>, outcome: nat -> bool, w: World)
    requires RefinesUpToFactors(trig, before, after)
    ensures AgreeUpToFactor(Run(trig, outcome, before, w), Run(trig, outcome, after, w))
  {
  }

  lemma SignIsFactor(trig: Trig, before: seq<Operation>, after: seq<Operation>)
    requires RefinesUpToPhase(trig, before, after)
    ensures RefinesUpToFactors(trig, before, after)
  {
    hide Refines, Signed, Parallel;
    var s: real :| IsSign(s) && Refines(trig, s, before, after);
    forall outcome: nat -> bool, w: World
      ensures AgreeUpToFactor(Run(trig, outcome, before, w), Run(trig, outcome, after, w))
    {
      RefinesAt(trig, s, before, after, outcome, w);
      var v := Run(trig, outcome, before, w);
      if v.Some? { SignedIsParallel(s, v.value.state, Run(trig, outcome, after, w).value.state); }
    }
  }

  lemma FactorsAfterExact(trig: Trig, first: seq<Operation>, second: seq<Operation>, third: seq<Operation>)
    requires Refines(trig, 1.0, first, second) && RefinesUpToFactors(trig, second, third)
    ensures RefinesUpToFactors(trig, first, third)
  {
    hide Refines, Signed, Parallel, RefinesUpToFactors;
    forall outcome: nat -> bool, w: World
      ensures AgreeUpToFactor(Run(trig, outcome, first, w), Run(trig, outcome, third, w))
    {
      RefinesAt(trig, 1.0, first, second, outcome, w);
      RefinesFactorsAt(trig, second, third, outcome, w);
      var u, v := Run(trig, outcome, first, w), Run(trig, outcome, second, w);
      if u.Some? {
        SignedIsParallel(1.0, u.value.state, v.value.state);
        ParallelTrans(u.value.state, v.value.state, Run(trig, outcome, third, w).value.state);
      }
    }
    AreRefined(trig, first, third);
  }

  lemma AreRefined(trig: Trig, before: seq<Operation>, after: seq<Operation>)
    requires forall outcome: nat -> bool, w: World ::
      AgreeUpToFactor(Run(trig, outcome, before, w), Run(trig, outcome, after, w))
    ensures RefinesUpToFactors(trig, before, after)
  {
  }

  ghost predicate ParallelThrough(first: seq<Operator>, second: seq<Operator>) {
    forall psi: State :: Parallel(Through(first, psi), Through(second, psi))
  }

  lemma OperatorsByFactors(trig: Trig, before: seq<Operation>, after: seq<Operation>)
    requires AllGates(before) && AllGates(after) && RefinesUpToFactors(trig, before, after)
    requires Operators(trig, before).Some? && Operators(trig, after).Some?
    ensures ParallelThrough(Operators(trig, before).value, Operators(trig, after).value)
  {
    hide Run, Through, Operators, Parallel;
    var p, q := Operators(trig, before).value, Operators(trig, after).value;
    forall psi: State ensures Parallel(Through(p, psi), Through(q, psi)) {
      var w := World(psi, (j: nat) => false, 0);
      var outcome := (j: nat) => false;
      GatesRun(trig, outcome, before, w);
      GatesRun(trig, outcome, after, w);
      RefinesFactorsAt(trig, before, after, outcome, w);
    }
  }
}
