/** The resource estimator's arithmetic (src/intelligence/estimate.ts:156-397). */
module Estimator {
  import opened Options
  import opened RealPowers
  import opened SurfaceCode
  import opened Distillation

  datatype Workload = Workload(
    logicalQubits: nat, circuitDepth: nat, tCount: nat, toffoliCount: nat, unsupportedCount: nat)

  datatype Layout = BareRegister | LatticeSurgery

  datatype Protocol = FifteenToOne | NoFactory

  datatype Scenario = Scenario(
    errorRate: real, cycleTimeNs: real,
    threshold: real, prefactor: real, qubitsPerDSquared: real, errorBudget: real,
    layout: Layout, toffoliCost: nat,
    protocol: Protocol, rawStateError: real, targetStateError: real,
    factoryDistance: Option<nat>, parallelFactories: nat, roundsPerDistillation: nat)

  /** What the scenario schema admits, with a rate of zero allowed too. */
  predicate Admissible(s: Scenario) {
    && s.errorRate >= 0.0 && s.cycleTimeNs > 0.0
    && s.threshold > 0.0 && s.prefactor > 0.0 && s.qubitsPerDSquared > 0.0 && s.errorBudget > 0.0
    && s.rawStateError > 0.0 && s.targetStateError > 0.0
    && s.parallelFactories > 0 && s.roundsPerDistillation > 0
  }

  datatype Limiter = LogicalCycles | MagicStateThroughput | NotDetermined

  datatype Evaluation =
    | AboveThreshold
    | NoDistance
    | Feasible(
        distance: nat, levels: nat, reachedTarget: bool,
        factoryPhysical: Option<real>, totalPhysical: Option<real>,
        runtime: Option<real>, limiter: Limiter, achievedError: real)

  // ---------------------------------------------------------------- the pieces

  /** The least k from a start with k * k >= m. */
  function CeilSqrtFrom(k: nat, m: nat): nat
    requires k <= m
    decreases m - k
  {
    if k * k >= m || k == m then k else CeilSqrtFrom(k + 1, m)
  }

  /** The least k with k * k >= m. */
  lemma {:induction false} CeilSqrtIsLeast(k: nat, m: nat)
    requires k <= m && forall j: nat :: j < k ==> j * j < m
    ensures var r := CeilSqrtFrom(k, m); k <= r && r * r >= m && forall j: nat :: j < r ==> j * j < m
    decreases m - k
  {
    if k * k < m {
      if k == m { SquareAtLeast(m); } else { CeilSqrtIsLeast(k + 1, m); }
    }
  }

  lemma SquareAtLeast(m: nat)
    ensures m * m >= m
  {
  }

  /** Patches a register occupies, routing space included. */
  function OccupiedLogicalQubits(qubits: nat, layout: Layout): nat {
    match layout
    case BareRegister => qubits
    case LatticeSurgery => 2 * qubits + CeilSqrtFrom(0, 8 * qubits) + 1
  }

  function MagicStates(w: Workload, s: Scenario): nat {
    w.tCount + s.toffoliCost * w.toffoliCount
  }

  /** No T or Toffoli was recorded, but some gate is neither Clifford nor T. */
  predicate Undetermined(w: Workload, s: Scenario) {
    MagicStates(w, s) == 0 && w.unsupportedCount > 0
  }

  function LogicalCyclesOf(w: Workload): nat {
    if w.circuitDepth > 1 then w.circuitDepth else 1
  }

  predicate NeedsFactory(w: Workload, s: Scenario) {
    MagicStates(w, s) > 0 && s.protocol != NoFactory
  }

  function CodeAssumptions(s: Scenario): Assumptions {
    Assumptions(s.errorRate, s.errorBudget, s.threshold, s.prefactor)
  }

  function PerPatch(s: Scenario, d: nat): real {
    s.qubitsPerDSquared * (d * d) as real
  }

  /** The footprint of the factories: 15 patches per level at the factory's distance. */
  function FactoryFootprint(s: Scenario, levels: nat, distance: nat): real {
    (levels * 15) as real * PerPatch(s, distance) * s.parallelFactories as real
  }

  /** The physical qubits of the factories, when their size is known. */
  function FactoryPhysical(w: Workload, s: Scenario, distance: nat): Option<real> {
    if Undetermined(w, s) then None
    else if NeedsFactory(w, s) then
      var distillation := LevelsFor(s.rawStateError, s.targetStateError);
      if !distillation.reachedTarget then None
      else
        var inside := match s.factoryDistance case Some(d) => d case None => distance;
        Some(FactoryFootprint(s, distillation.levels, inside))
    else Some(0.0)
  }

  function CycleSeconds(s: Scenario): real {
    s.cycleTimeNs / 1000000000.0
  }

  /** The seconds of some logical cycles: each takes as many rounds of the code as its distance. */
  function SecondsOf(s: Scenario, cycles: nat, distance: nat): real {
    (cycles * distance) as real * CycleSeconds(s)
  }

  function FactoryRuntime(w: Workload, s: Scenario): Option<real>
    requires Admissible(s)
  {
    if NeedsFactory(w, s) then
      if LevelsFor(s.rawStateError, s.targetStateError).reachedTarget then
        var secondsPerState := s.roundsPerDistillation as real * CycleSeconds(s);
        var throughput := s.parallelFactories as real / secondsPerState;
        Some(MagicStates(w, s) as real / throughput)
      else None
    else if Undetermined(w, s) then None
    else Some(0.0)
  }

  function Max(x: real, y: real): real {
    if x >= y then x else y
  }

  function Evaluate(w: Workload, s: Scenario): Evaluation
    requires Admissible(s)
  {
    var a := CodeAssumptions(s);
    var cycles := LogicalCyclesOf(w);
    if s.errorRate >= s.threshold then AboveThreshold
    else
      var found := DistanceFor(w.logicalQubits, cycles, a);
      if found.None? then NoDistance
      else
        var d := found.value;
        var needed := NeedsFactory(w, s) && !Undetermined(w, s);
        var distillation := LevelsFor(s.rawStateError, s.targetStateError);
        var factory := FactoryPhysical(w, s, d);
        var patches := PerPatch(s, d) * OccupiedLogicalQubits(w.logicalQubits, s.layout) as real;
        var total := if factory.None? then None else Some(patches + factory.value);
        var byCycles := SecondsOf(s, cycles, d);
        var byFactory := FactoryRuntime(w, s);
        Feasible(
          d, if needed then distillation.levels else 0,
          if needed then distillation.reachedTarget else !Undetermined(w, s),
          factory, total,
          if byFactory.None? then None else Some(Max(byCycles, byFactory.value)),
          if byFactory.None? then NotDetermined
          else if byFactory.value > byCycles then MagicStateThroughput else LogicalCycles,
          LogicalErrorPerCycle(d, a) * (w.logicalQubits * cycles) as real)
  }

  // ---------------------------------------------------------------- the machine does what was asked of it

  /** A feasible machine stays within the error budget. */
  lemma FeasibleMeetsBudget(w: Workload, s: Scenario)
    requires Admissible(s) && Evaluate(w, s).Feasible?
    ensures Evaluate(w, s).achievedError <= s.errorBudget
  {
    var a := CodeAssumptions(s);
    var cycles := LogicalCyclesOf(w);
    var d := DistanceFor(w.logicalQubits, cycles, a).value;
    if w.logicalQubits > 0 {
      LeastDistance(w.logicalQubits, cycles, a);
      assert Meets(CycleBudget(w.logicalQubits, cycles, a), d, a);
      hide LogicalErrorPerCycle, DistanceFor, FactoryPhysical, FactoryRuntime, LevelsFor;
      WithinBudget(LogicalErrorPerCycle(d, a), s.errorBudget, w.logicalQubits * cycles);
    }
  }

  lemma WithinBudget(error: real, budget: real, n: nat)
    requires n > 0 && error <= budget / n as real
    ensures error * n as real <= budget
  {
    var share := budget / n as real;
    assert share * n as real == budget;
    ProductNonNegative(share - error, n as real);
    assert (share - error) * n as real == share * n as real - error * n as real;
  }
}
