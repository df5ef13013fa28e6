/**
 * The machine an evaluation describes, in numbers of its workload and scenario (src/intelligence/estimate.ts:156-397,
 * src/engine/fault-tolerant.ts:217-247).
 */
module Machines {
  import opened Options
  import opened RealPowers
  import opened SurfaceCode
  import opened Distillation
  import opened Estimator

  // ---------------------------------------------------------------- the code distance

  /** Two more units of distance multiply the logical error by p / p_th, starting from A p / p_th at distance 1. */
  lemma ErrorRecurrence(d: nat, a: Assumptions)
    requires WellFormed(a) && d % 2 == 1
    ensures LogicalErrorPerCycle(1, a) * a.threshold == a.prefactor * a.errorRate
    ensures LogicalErrorPerCycle(d + 2, a) * a.threshold == LogicalErrorPerCycle(d, a) * a.errorRate
  {
    var x, n := a.errorRate / a.threshold, (d + 1) / 2;
    assert (d + 2 + 1) / 2 == n + 1 && (1 + 1) / 2 == 1;
    assert x * a.threshold == a.errorRate;
    assert Power(x, 1) == x by { assert Power(x, 0) == 1.0; }
    assert Power(x, n + 1) == x * Power(x, n);
    Regroup(a.prefactor, x, 1.0, a.threshold, a.errorRate);
    Regroup(a.prefactor, x, Power(x, n), a.threshold, a.errorRate);
  }

  lemma Regroup(c: real, x: real, y: real, t: real, p: real)
    requires x * t == p
    ensures c * (x * y) * t == (c * y) * p
  {
    assert c * (x * y) * t == (c * y) * (x * t);
  }

  /** The error of a whole run at some distance: every logical qubit in every logical cycle. */
  function RunError(w: Workload, s: Scenario, d: nat): real
    requires Admissible(s)
  {
    LogicalErrorPerCycle(d, CodeAssumptions(s)) * (w.logicalQubits * CyclesOf(w)) as real
  }

  /** At least one cycle, even for an empty circuit. */
  function CyclesOf(w: Workload): nat {
    if w.circuitDepth == 0 then 1 else w.circuitDepth
  }

  predicate IsOddDistance(d: nat) {
    3 <= d <= 201 && d % 2 == 1
  }

  lemma ShareOrWhole(error: real, budget: real, n: nat)
    requires n > 0
    ensures error <= budget / n as real <==> error * n as real <= budget
  {
    var share := budget / n as real;
    assert share * n as real == budget;
    assert (share - error) * n as real == share * n as real - error * n as real;
    if error <= share { ProductNonNegative(share - error, n as real); }
    if error > share {
      ProductPositive(error - share, n as real);
      assert (error - share) * n as real == error * n as real - share * n as real;
    }
  }

  lemma MeetsIsRunError(w: Workload, s: Scenario, d: nat)
    requires Admissible(s) && w.logicalQubits > 0
    ensures Meets(CycleBudget(w.logicalQubits, CyclesOf(w), CodeAssumptions(s)), d, CodeAssumptions(s))
       <==> RunError(w, s, d) <= s.errorBudget
  {
    hide LogicalErrorPerCycle;
    CyclesPositive(w.logicalQubits, CyclesOf(w));
    ShareOrWhole(LogicalErrorPerCycle(d, CodeAssumptions(s)), s.errorBudget, w.logicalQubits * CyclesOf(w));
  }

  lemma CyclesPositive(m: nat, n: nat)
    requires m > 0 && n > 0
    ensures m * n > 0
  {
  }

  /**
   * A machine with a logical qubit is refused as above threshold exactly when the device is; otherwise it gets the
   * least odd distance from 3 to 201 at which the whole run stays within the error budget, or is refused when there is
   * none.
   */
  lemma LeastDistanceWithinBudget(w: Workload, s: Scenario)
    requires Admissible(s) && w.logicalQubits > 0
    ensures var e := Evaluate(w, s);
      && (e.AboveThreshold? <==> s.errorRate >= s.threshold)
      && (e.NoDistance? <==>
            s.errorRate < s.threshold && forall d: nat :: IsOddDistance(d) ==> RunError(w, s, d) > s.errorBudget)
      && (e.Feasible? ==>
            && IsOddDistance(e.distance) && e.achievedError == RunError(w, s, e.distance) <= s.errorBudget
            && forall d: nat :: IsOddDistance(d) && d < e.distance ==> RunError(w, s, d) > s.errorBudget)
  {
    hide Meets, CycleBudget, LevelsFor, FactoryPhysical, FactoryRuntime, PerPatch, OccupiedLogicalQubits, SmallestFrom;
    var a := CodeAssumptions(s);
    if s.errorRate < s.threshold {
      LeastDistance(w.logicalQubits, CyclesOf(w), a);
      hide DistanceFor, LogicalErrorPerCycle;
      forall d: nat
        ensures Meets(CycleBudget(w.logicalQubits, CyclesOf(w), a), d, a) <==> RunError(w, s, d) <= s.errorBudget
        ensures IsCandidate(d) <==> IsOddDistance(d)
      {
        MeetsIsRunError(w, s, d);
      }
    }
  }

  // ---------------------------------------------------------------- the footprint

  /** Above 2n, with an excess over 2n + 1 whose square is 8n or more. */
  predicate LeavesRoom(n: nat, r: nat) {
    r >= 2 * n + 1 && (r - 2 * n - 1) * (r - 2 * n - 1) >= 8 * n
  }

  /** The least such number of patches. */
  predicate IsRouted(n: nat, r: nat) {
    LeavesRoom(n, r) && forall q: nat :: q < r ==> !LeavesRoom(n, q)
  }

  lemma RoutedPatches(n: nat)
    ensures IsRouted(n, OccupiedLogicalQubits(n, LatticeSurgery))
  {
    CeilSqrtIsLeast(0, 8 * n);
    hide CeilSqrtFrom;
    var k := CeilSqrtFrom(0, 8 * n);
    var r := 2 * n + 1 + k;
    assert r - 2 * n - 1 == k;
    forall q: nat | q < r ensures !LeavesRoom(n, q) {
      if q >= 2 * n + 1 {
        var j: nat := q - 2 * n - 1;
        assert j < k;
      }
    }
  }

  /** No magic state is asked for. */
  predicate AsksForNone(w: Workload, s: Scenario) {
    w.tCount + s.toffoliCost * w.toffoliCount == 0
  }

  /** The patches of the register: a count r that is n itself, or n with its routing space. */
  predicate IsRegister(w: Workload, s: Scenario, r: nat) {
    if s.layout == BareRegister then r == w.logicalQubits else IsRouted(w.logicalQubits, r)
  }

  /** What d squared physical qubits a patch make of r patches. */
  function QubitsOf(s: Scenario, d: nat, r: nat): real {
    s.qubitsPerDSquared * (d * d) as real * r as real
  }

  lemma TotalIsSum(w: Workload, s: Scenario) returns (r: nat)
    requires Admissible(s) && Evaluate(w, s).Feasible?
    ensures var e := Evaluate(w, s);
      && IsRegister(w, s, r)
      && e.factoryPhysical == FactoryPhysical(w, s, e.distance)
      && (e.totalPhysical.Some? <==> e.factoryPhysical.Some?)
      && (e.totalPhysical.Some? ==> e.totalPhysical.value == QubitsOf(s, e.distance, r) + e.factoryPhysical.value)
  {
    hide DistanceFor, LevelsFor, FactoryPhysical, FactoryRuntime, LogicalErrorPerCycle;
    r := OccupiedLogicalQubits(w.logicalQubits, s.layout);
    if s.layout.LatticeSurgery? { RoutedPatches(w.logicalQubits); }
    hide CeilSqrtFrom, IsRouted;
  }

  /** Every magic state that is needed is counted, and none comes from a factory. */
  predicate HasNoFactory(w: Workload, s: Scenario) {
    if AsksForNone(w, s) then w.unsupportedCount == 0 else s.protocol == NoFactory
  }

  /** Without a factory the machine is its register: r patches of the code distance. */
  lemma RegisterOnly(w: Workload, s: Scenario) returns (r: nat)
    requires Admissible(s) && Evaluate(w, s).Feasible? && HasNoFactory(w, s)
    ensures var e := Evaluate(w, s);
      IsRegister(w, s, r) && e.totalPhysical == Some(QubitsOf(s, e.distance, r)) && e.levels == 0 && e.reachedTarget
  {
    hide DistanceFor, LevelsFor, FactoryRuntime, LogicalErrorPerCycle, OccupiedLogicalQubits, QubitsOf, IsRegister,
         PerPatch;
    r := TotalIsSum(w, s);
  }

  /** Nothing is sized when gates are left whose magic states nobody has counted. */
  lemma UncountedIsUnsized(w: Workload, s: Scenario)
    requires Admissible(s) && Evaluate(w, s).Feasible? && AsksForNone(w, s) && w.unsupportedCount > 0
    ensures var e := Evaluate(w, s);
      e.totalPhysical.None? && e.factoryPhysical.None? && e.runtime.None? && e.limiter == NotDetermined
        && !e.reachedTarget
  {
    hide DistanceFor, LevelsFor, LogicalErrorPerCycle, OccupiedLogicalQubits, PerPatch;
  }

  /**
   * With magic states and a factory: the machine is sized exactly when some number of levels up to 6 reaches the
   * target, and beyond its register it then has 15 patches a level in every factory, at the factory's own distance if
   * it has one.
   */
  lemma RegisterAndFactories(w: Workload, s: Scenario) returns (r: nat)
    requires Admissible(s) && Evaluate(w, s).Feasible? && !AsksForNone(w, s) && s.protocol == FifteenToOne
    ensures var e := Evaluate(w, s);
      var inside := match s.factoryDistance case Some(f) => f case None => e.distance;
      && IsRegister(w, s, r) && (e.totalPhysical.Some? <==> e.reachedTarget)
      && (e.reachedTarget <==> exists k: nat :: k <= 6 && ErrorAfter(s.rawStateError, k) <= s.targetStateError)
      && (e.reachedTarget ==>
            && ErrorAfter(s.rawStateError, e.levels) <= s.targetStateError
            && (forall k: nat :: k < e.levels ==> ErrorAfter(s.rawStateError, k) > s.targetStateError)
            && e.totalPhysical.value
               == QubitsOf(s, e.distance, r) + QubitsOf(s, inside, 15 * e.levels * s.parallelFactories))
  {
    r := TotalIsSum(w, s);
    LevelsAreLeast(s.rawStateError, s.targetStateError);
    hide DistanceFor, LevelsFor, FactoryRuntime, LogicalErrorPerCycle, OccupiedLogicalQubits, IsRegister, PerPatch,
         ErrorAfter;
    hide FactoryFootprint, QubitsOf;
    var e := Evaluate(w, s);
    var inside := match s.factoryDistance case Some(f) => f case None => e.distance;
    FootprintIsPatches(s, LevelsFor(s.rawStateError, s.targetStateError).levels, inside);
  }

  lemma FootprintIsPatches(s: Scenario, levels: nat, d: nat)
    ensures FactoryFootprint(s, levels, d) == QubitsOf(s, d, 15 * levels * s.parallelFactories)
  {
    hide PerPatch;
    var p, m, f := PerPatch(s, d), (levels * 15) as real, s.parallelFactories as real;
    assert (15 * levels * s.parallelFactories) as real == m * f;
    assert m * p * f == p * (m * f);
    PatchQubits(s, d, 15 * levels * s.parallelFactories);
  }

  lemma PatchQubits(s: Scenario, d: nat, r: nat)
    ensures PerPatch(s, d) * r as real == QubitsOf(s, d, r)
  {
  }

  // ---------------------------------------------------------------- the runtime

  /** A logical cycle takes as many rounds of the code as the distance. */
  function RegisterRounds(w: Workload, d: nat): nat {
    CyclesOf(w) * d
  }

  /** A machine whose rounds last so many nanoseconds runs that many of them in these seconds. */
  predicate Takes(seconds: real, rounds: nat, cycleTimeNs: real) {
    seconds * 1000000000.0 == rounds as real * cycleTimeNs
  }

  /** Every magic state a run needs takes the rounds of one distillation. */
  function DistillationRounds(w: Workload, s: Scenario): nat {
    (w.tCount + s.toffoliCost * w.toffoliCount) * s.roundsPerDistillation
  }

  /** The time the factories need together when each is busy for these seconds. */
  function SharedTime(seconds: real, s: Scenario): real {
    seconds * s.parallelFactories as real
  }

  /** Without a factory a run takes one round of the code for each unit of distance in each logical cycle. */
  lemma RegisterRuntime(w: Workload, s: Scenario)
    requires Admissible(s) && Evaluate(w, s).Feasible? && HasNoFactory(w, s)
    ensures var e := Evaluate(w, s);
      && e.runtime.Some? && e.limiter == LogicalCycles
      && Takes(e.runtime.value, RegisterRounds(w, e.distance), s.cycleTimeNs)
  {
    hide DistanceFor, LevelsFor, LogicalErrorPerCycle, OccupiedLogicalQubits, PerPatch, SecondsOf, Takes;
    NanosecondsOf(w, s, Evaluate(w, s).distance);
  }

  lemma InSeconds(rounds: nat, cycleTimeNs: real)
    requires cycleTimeNs > 0.0
    ensures var t := rounds as real * (cycleTimeNs / 1000000000.0);
      t >= 0.0 && t * 1000000000.0 == rounds as real * cycleTimeNs
  {
    var c := cycleTimeNs / 1000000000.0;
    assert c * 1000000000.0 == cycleTimeNs && c > 0.0;
    ProductNonNegative(rounds as real, c);
    assert rounds as real * c * 1000000000.0 == rounds as real * (c * 1000000000.0);
  }

  /**
   * With factories that reach their target a run takes as long as its logical cycles or as the factories need for all
   * magic states, each busy with its share of them for so many rounds; the longer of the two is named the limiter.
   */
  lemma FactoryLimitedRuntime(w: Workload, s: Scenario) returns (byCycles: real, byFactory: real)
    requires Admissible(s) && !AsksForNone(w, s) && s.protocol == FifteenToOne
    requires Evaluate(w, s).Feasible? && Evaluate(w, s).reachedTarget
    ensures var e := Evaluate(w, s);
      && Takes(byCycles, RegisterRounds(w, e.distance), s.cycleTimeNs)
      && Takes(SharedTime(byFactory, s), DistillationRounds(w, s), s.cycleTimeNs)
      && e.runtime == Some(if byFactory > byCycles then byFactory else byCycles)
      && e.limiter == if byFactory > byCycles then MagicStateThroughput else LogicalCycles
  {
    hide SecondsOf, FactoryRuntime, Takes, SharedTime, DistillationRounds;
    var e := Evaluate(w, s);
    LongerIsRuntime(w, s);
    FactoryTime(w, s);
    NanosecondsOf(w, s, e.distance);
    hide Evaluate, RegisterRounds;
    byCycles, byFactory := SecondsOf(s, CyclesOf(w), e.distance), FactoryRuntime(w, s).value;
  }

  lemma NanosecondsOf(w: Workload, s: Scenario, d: nat)
    requires Admissible(s)
    ensures Takes(SecondsOf(s, CyclesOf(w), d), RegisterRounds(w, d), s.cycleTimeNs)
    ensures SecondsOf(s, CyclesOf(w), d) >= 0.0
  {
    InSeconds(CyclesOf(w) * d, s.cycleTimeNs);
  }

  lemma LongerIsRuntime(w: Workload, s: Scenario)
    requires Admissible(s) && Evaluate(w, s).Feasible? && !AsksForNone(w, s) && s.protocol == FifteenToOne
    ensures var e := Evaluate(w, s);
      && (e.reachedTarget <==> FactoryRuntime(w, s).Some?)
      && (e.reachedTarget ==>
            var byCycles, byFactory := SecondsOf(s, CyclesOf(w), e.distance), FactoryRuntime(w, s).value;
            && e.runtime == Some(if byFactory > byCycles then byFactory else byCycles)
            && e.limiter == if byFactory > byCycles then MagicStateThroughput else LogicalCycles)
  {
    assert FactoryRuntime(w, s).Some? <==> LevelsFor(s.rawStateError, s.targetStateError).reachedTarget;
    hide DistanceFor, LevelsFor, LogicalErrorPerCycle, OccupiedLogicalQubits, PerPatch, SecondsOf, FactoryPhysical;
    hide FactoryRuntime;
    assert !Undetermined(w, s) && NeedsFactory(w, s) && LogicalCyclesOf(w) == CyclesOf(w);
    if FactoryRuntime(w, s).Some? { LongerOf(w, s); }
  }

  lemma LongerOf(w: Workload, s: Scenario)
    requires Admissible(s) && Evaluate(w, s).Feasible? && FactoryRuntime(w, s).Some?
    ensures var e := Evaluate(w, s);
      var byCycles, byFactory := SecondsOf(s, LogicalCyclesOf(w), e.distance), FactoryRuntime(w, s).value;
      && e.runtime == Some(Max(byCycles, byFactory))
      && e.limiter == if byFactory > byCycles then MagicStateThroughput else LogicalCycles
  {
    hide DistanceFor, LevelsFor, LogicalErrorPerCycle, OccupiedLogicalQubits, PerPatch, SecondsOf, FactoryPhysical;
    hide FactoryRuntime, Max, Undetermined, NeedsFactory, CodeAssumptions;
  }

  lemma FactoryTime(w: Workload, s: Scenario)
    requires Admissible(s) && !AsksForNone(w, s) && s.protocol == FifteenToOne && FactoryRuntime(w, s).Some?
    ensures Takes(SharedTime(FactoryRuntime(w, s).value, s), DistillationRounds(w, s), s.cycleTimeNs)
  {
    hide LevelsFor;
    var m, c := MagicStates(w, s), CycleSeconds(s);
    SharedRounds(m, s.roundsPerDistillation, s.parallelFactories, c);
    InSeconds(m * s.roundsPerDistillation, s.cycleTimeNs);
    assert FactoryRuntime(w, s).value
      == m as real / (s.parallelFactories as real / (s.roundsPerDistillation as real * c));
  }

  /** m states at f / (r c) a second keep f factories busy for m r rounds of c seconds. */
  lemma SharedRounds(m: nat, r: nat, f: nat, c: real)
    requires r > 0 && f > 0 && c > 0.0
    ensures r as real * c > 0.0 && f as real / (r as real * c) > 0.0
    ensures m as real / (f as real / (r as real * c)) * f as real == (m * r) as real * c
  {
    ProductPositive(r as real, c);
    var per := r as real * c;
    var v := f as real / per;
    assert v * per == f as real;
    Busy(m as real, per, v, f as real);
    assert (m * r) as real * c == m as real * per;
  }

  lemma Busy(m: real, per: real, v: real, f: real)
    requires per > 0.0 && f > 0.0 && v * per == f
    ensures v > 0.0 && m / v * f == m * per
  {
    if v <= 0.0 { ProductNonNegative(0.0 - v, per); }
    var t := m / v;
    assert t * v == m;
    assert t * (v * per) == (t * v) * per;
  }
}
