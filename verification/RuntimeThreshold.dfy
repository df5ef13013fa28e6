/**
 * The slowest cycle meeting a runtime target (src/intelligence/thresholds.ts:286-335) against the estimator's runtime.
 */
module RuntimeThreshold {
  import opened Options
  import opened RealPowers
  import opened SurfaceCode
  import opened Distillation
  import opened Estimator

  /** Rounds the factories need for all magic states. */
  function FactoryRounds(w: Workload, s: Scenario): real
    requires Admissible(s)
  {
    (MagicStates(w, s) * s.roundsPerDistillation) as real / s.parallelFactories as real
  }

  /** The surface-code rounds the thresholds charge to a run, under whichever limiter binds. */
  function RoundsPerRun(w: Workload, s: Scenario): Option<real>
    requires Admissible(s)
  {
    var e := Evaluate(w, s);
    if !e.Feasible? || Undetermined(w, s) then None
    else
      Some(Max((LogicalCyclesOf(w) * e.distance) as real,
               if MagicStates(w, s) > 0 && e.reachedTarget then FactoryRounds(w, s) else 0.0))
  }

  function Limit(target: real, rounds: real): real
    requires rounds != 0.0
  {
    target * 1000000000.0 / rounds
  }

  /** Linear in the cycle time, so a division. */
  function MaxCycleTime(w: Workload, s: Scenario, target: real): Option<real>
    requires Admissible(s)
  {
    var rounds := RoundsPerRun(w, s);
    if rounds.None? || rounds.value == 0.0 then None else Some(Limit(target, rounds.value))
  }

  /** The estimator's runtime at another cycle time meets the target. */
  predicate MeetsTarget(w: Workload, s: Scenario, target: real, cycleTimeNs: real)
    requires Admissible(s) && cycleTimeNs > 0.0
  {
    var e := Evaluate(w, s.(cycleTimeNs := cycleTimeNs));
    e.Feasible? && e.runtime.Some? && e.runtime.value <= target
  }

  /** The rounds the estimator itself spends: the factory counts only where there is one. */
  function SpentRounds(w: Workload, s: Scenario, distance: nat): real
    requires Admissible(s)
  {
    Max((LogicalCyclesOf(w) * distance) as real, if NeedsFactory(w, s) then FactoryRounds(w, s) else 0.0)
  }

  lemma MaxScaled(x: real, y: real, c: real)
    requires c > 0.0
    ensures Max(x * c, y * c) == Max(x, y) * c
  {
    if x >= y { ProductMonotone(0.0, x - y, c, c); } else { ProductMonotone(0.0, y - x, c, c); }
    assert (x - y) * c == x * c - y * c;
  }

  lemma Throughput(magic: nat, rounds: nat, factories: nat, c: real)
    requires rounds > 0 && factories > 0 && c > 0.0
    ensures rounds as real * c > 0.0 && factories as real / (rounds as real * c) > 0.0
    ensures magic as real / (factories as real / (rounds as real * c))
      == (magic * rounds) as real / factories as real * c
  {
    ProductPositive(rounds as real, c);
    var m, r, f := magic as real, rounds as real, factories as real;
    assert (magic * rounds) as real == m * r;
    var per := r * c;
    QuotientPositive(f, per);
    var speed := f / per;
    assert speed * per == f;
    var spent := (m * r) / f * c;
    assert (m * r) / f * f == m * r;
    SpentTimesSpeed(m, r, f, c, (m * r) / f, speed);
    assert spent * speed == m;
  }

  lemma QuotientPositive(x: real, d: real)
    requires x > 0.0 && d > 0.0
    ensures x / d > 0.0
  {
  }

  /** q = m r / f and v = f / (r c), so q c v = m. */
  lemma SpentTimesSpeed(m: real, r: real, f: real, c: real, q: real, v: real)
    requires r > 0.0 && f > 0.0 && c > 0.0 && q * f == m * r && v * (r * c) == f
    ensures (q * c) * v == m
  {
    assert q * (v * (r * c)) == m * r;
    assert q * (v * (r * c)) == ((q * c) * v) * r;
    var x := (q * c) * v;
    assert (x - m) * r == x * r - m * r;
    if x > m { ProductPositive(x - m, r); }
    if x < m { ProductPositive(m - x, r); }
  }

  lemma FactoryRuntimeIsRounds(w: Workload, s: Scenario)
    requires Admissible(s) && !Undetermined(w, s) && FactoryRuntime(w, s).Some?
    ensures FactoryRuntime(w, s).value == (if NeedsFactory(w, s) then FactoryRounds(w, s) else 0.0) * CycleSeconds(s)
  {
    hide LevelsFor, MagicStates;
    if NeedsFactory(w, s) {
      Throughput(MagicStates(w, s), s.roundsPerDistillation, s.parallelFactories, CycleSeconds(s));
    }
  }

  /** The runtime is the rounds spent times the length of one, whenever the factory can keep its promise. */
  lemma RuntimeIsRounds(w: Workload, s: Scenario)
    requires Admissible(s) && Evaluate(w, s).Feasible? && !Undetermined(w, s)
    ensures var e := Evaluate(w, s);
      && (e.runtime.Some? <==> (NeedsFactory(w, s) ==> e.reachedTarget))
      && (e.runtime.Some? ==> e.runtime.value == SpentRounds(w, s, e.distance) * CycleSeconds(s))
  {
    hide LevelsFor, DistanceFor, FactoryPhysical, LogicalErrorPerCycle, FactoryRounds, PerPatch, OccupiedLogicalQubits;
    var e := Evaluate(w, s);
    if FactoryRuntime(w, s).Some? {
      FactoryRuntimeIsRounds(w, s);
      hide FactoryRuntime;
      var byFactory := if NeedsFactory(w, s) then FactoryRounds(w, s) else 0.0;
      MaxScaled((LogicalCyclesOf(w) * e.distance) as real, byFactory, CycleSeconds(s));
    }
  }

  /** Nothing but the runtime depends on the cycle time. */
  lemma OtherCycleTime(w: Workload, s: Scenario, cycleTimeNs: real)
    requires Admissible(s) && cycleTimeNs > 0.0 && Evaluate(w, s).Feasible?
    ensures var e, f := Evaluate(w, s), Evaluate(w, s.(cycleTimeNs := cycleTimeNs));
      && f.Feasible? && f.distance == e.distance && f.reachedTarget == e.reachedTarget
      && SpentRounds(w, s.(cycleTimeNs := cycleTimeNs), e.distance) == SpentRounds(w, s, e.distance)
  {
    hide LevelsFor, DistanceFor, FactoryPhysical, FactoryRuntime, LogicalErrorPerCycle, PerPatch, OccupiedLogicalQubits;
    hide MagicStates;
    var t := s.(cycleTimeNs := cycleTimeNs);
    assert MagicStates(w, t) == MagicStates(w, s) by { SameMagic(w, s, cycleTimeNs); }
    assert CodeAssumptions(t) == CodeAssumptions(s);
  }

  lemma SameMagic(w: Workload, s: Scenario, cycleTimeNs: real)
    ensures MagicStates(w, s.(cycleTimeNs := cycleTimeNs)) == MagicStates(w, s)
  {
  }

  /**
   * What the thresholds assume of the estimator: the factory, where there is one, reaches its target; and where there
   * is none, the rounds its magic states would have taken do not exceed those of the logical cycles.
   */
  predicate ChargesWhatItSpends(w: Workload, s: Scenario)
    requires Admissible(s) && Evaluate(w, s).Feasible?
  {
    var e := Evaluate(w, s);
    if NeedsFactory(w, s) then e.reachedTarget
    else MagicStates(w, s) > 0 ==> FactoryRounds(w, s) <= (LogicalCyclesOf(w) * e.distance) as real
  }

  /** A cycle of c nanoseconds spends rounds * c / 10^9 seconds. */
  lemma CycleAtMost(c: real, rounds: real, target: real)
    requires rounds > 0.0
    ensures c <= Limit(target, rounds) <==> rounds * (c / 1000000000.0) <= target
  {
    var limit := target * 1000000000.0 / rounds;
    assert limit * rounds == target * 1000000000.0;
    assert rounds * (c / 1000000000.0) * 1000000000.0 == rounds * c;
    if c <= limit {
      ProductNonNegative(limit - c, rounds);
      assert (limit - c) * rounds == limit * rounds - c * rounds;
    } else {
      ProductPositive(c - limit, rounds);
      assert (c - limit) * rounds == c * rounds - limit * rounds;
    }
  }

  lemma MeetsTargetMeans(w: Workload, s: Scenario, target: real, c: real)
    requires Admissible(s) && c > 0.0 && Evaluate(w, s).Feasible? && !Undetermined(w, s)
    ensures var e := Evaluate(w, s);
      MeetsTarget(w, s, target, c) <==> (
        (NeedsFactory(w, s) ==> e.reachedTarget) && SpentRounds(w, s, e.distance) * (c / 1000000000.0) <= target)
  {
    hide Evaluate, SpentRounds, MagicStates;
    OtherCycleTime(w, s, c);
    SameMagic(w, s, c);
    RuntimeIsRounds(w, s.(cycleTimeNs := c));
  }

  lemma DistanceIsPositive(w: Workload, s: Scenario)
    requires Admissible(s) && Evaluate(w, s).Feasible?
    ensures Evaluate(w, s).distance >= 1
    ensures (LogicalCyclesOf(w) * Evaluate(w, s).distance) as real >= 1.0
  {
    hide LevelsFor, SmallestFrom, FactoryPhysical, FactoryRuntime, LogicalErrorPerCycle, PerPatch,
         OccupiedLogicalQubits, Meets;
    if w.logicalQubits > 0 {
      LeastDistance(w.logicalQubits, LogicalCyclesOf(w), CodeAssumptions(s));
    }
    var d := Evaluate(w, s).distance;
    assert d >= 1;
    hide Evaluate;
    CyclesTimes(LogicalCyclesOf(w), d);
  }

  lemma CyclesTimes(n: nat, d: nat)
    requires n >= 1 && d >= 1
    ensures (n * d) as real >= 1.0
  {
    assert n * d >= 1;
  }

  /** The solved cycle time separates the cycle times that meet the target from those that do not. */
  ghost predicate ThresholdIsExact(w: Workload, s: Scenario, target: real, limit: real)
    requires Admissible(s)
  {
    forall c: real :: c > 0.0 ==> (c <= limit <==> MeetsTarget(w, s, target, c))
  }

  lemma NothingToReach(w: Workload, s: Scenario)
    requires Admissible(s) && Evaluate(w, s).Feasible? && !Undetermined(w, s)
    ensures !NeedsFactory(w, s) ==> Evaluate(w, s).reachedTarget
  {
    hide LevelsFor, DistanceFor, FactoryPhysical, FactoryRuntime, LogicalErrorPerCycle, PerPatch, OccupiedLogicalQubits;
  }

  /** The runtime threshold inverts the estimator exactly when both charge the same rounds. */
  lemma RuntimeThresholdIsExactWhen(w: Workload, s: Scenario, target: real)
    requires Admissible(s) && Evaluate(w, s).Feasible? && !Undetermined(w, s) && target > 0.0
    ensures MaxCycleTime(w, s, target).Some?
    ensures ThresholdIsExact(w, s, target, MaxCycleTime(w, s, target).value) <==> ChargesWhatItSpends(w, s)
  {
    hide Evaluate, MeetsTarget, FactoryRounds, MagicStates;
    var d := Evaluate(w, s).distance;
    DistanceIsPositive(w, s);
    NothingToReach(w, s);
    var charged, spent := RoundsPerRun(w, s).value, SpentRounds(w, s, d);
    hide Limit;
    var limit := Limit(target, charged);
    assert charged >= 1.0 && spent >= 1.0;
    if ChargesWhatItSpends(w, s) {
      assert charged == spent;
      forall c: real | c > 0.0 ensures c <= limit <==> MeetsTarget(w, s, target, c) {
        MeetsTargetMeans(w, s, target, c);
        CycleAtMost(c, spent, target);
      }
    } else {
      NotExact(w, s, target, charged, spent, limit);
    }
  }

  lemma NotExact(w: Workload, s: Scenario, target: real, charged: real, spent: real, limit: real)
    requires Admissible(s) && Evaluate(w, s).Feasible? && !Undetermined(w, s) && target > 0.0
    requires charged >= 1.0 && spent >= 1.0 && limit == Limit(target, charged)
    requires spent == SpentRounds(w, s, Evaluate(w, s).distance)
    requires NeedsFactory(w, s) ==> !Evaluate(w, s).reachedTarget
    requires !NeedsFactory(w, s) ==> charged > spent
    ensures !ThresholdIsExact(w, s, target, limit)
  {
    hide Evaluate, MeetsTarget, SpentRounds, MagicStates, Limit;
    if NeedsFactory(w, s) {
      LimitPositive(target, charged);
      MeetsTargetMeans(w, s, target, limit);
    } else {
      var c := Limit(target, spent);
      LimitPositive(target, spent);
      MeetsTargetMeans(w, s, target, c);
      CycleAtMost(c, spent, target);
      CycleAtMost(c, charged, target);
      BothExact(c, spent, charged, target);
    }
  }

  lemma LimitPositive(target: real, rounds: real)
    requires target > 0.0 && rounds > 0.0
    ensures Limit(target, rounds) > 0.0
  {
    QuotientPositive(target * 1000000000.0, rounds);
  }

  lemma BothExact(c: real, spent: real, charged: real, target: real)
    requires 0.0 < spent < charged && target > 0.0 && c == Limit(target, spent)
    ensures charged * (c / 1000000000.0) > target
  {
    var seconds := c / 1000000000.0;
    assert c * spent == target * 1000000000.0;
    assert spent * seconds == target;
    QuotientPositive(target * 1000000000.0, spent);
    ProductPositive(charged - spent, seconds);
    assert (charged - spent) * seconds == charged * seconds - spent * seconds;
  }

  /**
   * A machine without a factory whose distillations, had it one, would take longer than its logical cycles at any
   * distance.
   */
  predicate IsIdleFactory(w: Workload, s: Scenario) {
    && w.logicalQubits > 0 && Admissible(s) && s.protocol == NoFactory && Evaluate(w, s).Feasible?
    && MagicStates(w, s) * s.roundsPerDistillation > LogicalCyclesOf(w) * MAX_DISTANCE * s.parallelFactories
  }

  lemma IdleFactoryRuns(w: Workload, s: Scenario)
    requires IsIdleFactory(w, s)
    ensures !Undetermined(w, s) && !ChargesWhatItSpends(w, s)
  {
    var d := Evaluate(w, s).distance;
    IdleDistance(w, s);
    hide Evaluate, MagicStates;
    var m, c := MagicStates(w, s), LogicalCyclesOf(w);
    if m == 0 { NothingExceeds(c * MAX_DISTANCE, s.parallelFactories, s.roundsPerDistillation); }
    MoreRounds(m * s.roundsPerDistillation, c, d, MAX_DISTANCE, s.parallelFactories);
  }

  lemma NothingExceeds(n: nat, f: nat, r: nat)
    ensures 0 * r <= n * f
  {
  }

  lemma IdleDistance(w: Workload, s: Scenario)
    requires Admissible(s) && w.logicalQubits > 0 && Evaluate(w, s).Feasible?
    ensures Evaluate(w, s).distance <= MAX_DISTANCE
  {
    hide LevelsFor, SmallestFrom, FactoryPhysical, FactoryRuntime, LogicalErrorPerCycle, PerPatch,
         OccupiedLogicalQubits, Meets;
    LeastDistance(w.logicalQubits, LogicalCyclesOf(w), CodeAssumptions(s));
  }

  lemma MoreRounds(rounds: nat, cycles: nat, d: nat, bound: nat, factories: nat)
    requires d <= bound && factories > 0 && rounds > cycles * bound * factories
    ensures rounds as real / factories as real > (cycles * d) as real
  {
    var q, f := rounds as real / factories as real, factories as real;
    assert q * f == rounds as real;
    assert cycles * bound * factories - cycles * d * factories == cycles * (bound - d) * factories;
    assert (cycles * d) as real * f == (cycles * d * factories) as real;
    OrderScaled(q, (cycles * d) as real, f);
  }

  lemma OrderScaled(x: real, y: real, f: real)
    requires f > 0.0
    ensures x <= y <==> x * f <= y * f
  {
    if x <= y { ProductNonNegative(y - x, f); } else { ProductPositive(x - y, f); }
    assert (y - x) * f == y * f - x * f;
  }

  /** The thresholds charge it for the rounds of a factory that is not there, and so are too strict. */
  lemma IdleFactoryIsCharged(w: Workload, s: Scenario, target: real)
    requires IsIdleFactory(w, s) && target > 0.0
    ensures !Undetermined(w, s) && MaxCycleTime(w, s, target).Some?
    ensures !ThresholdIsExact(w, s, target, MaxCycleTime(w, s, target).value)
  {
    IdleFactoryRuns(w, s);
    hide Evaluate, MeetsTarget, ChargesWhatItSpends, MagicStates, ThresholdIsExact, MaxCycleTime;
    RuntimeThresholdIsExactWhen(w, s, target);
  }

  /** One qubit, one cycle and a thousand T gates, on a device ten times below threshold. */
  predicate IsSmallMachine(w: Workload, s: Scenario) {
    && w == Workload(1, 1, 1000, 0, 0) && Admissible(s) && s.protocol == NoFactory
    && s.threshold == 0.01 && s.errorRate == 0.001 && s.prefactor == 0.1 && s.errorBudget >= 0.001
    && s.parallelFactories == 1 && s.roundsPerDistillation == 10
  }

  lemma SmallMachineIsIdle(w: Workload, s: Scenario)
    requires IsSmallMachine(w, s)
    ensures IsIdleFactory(w, s) && Evaluate(w, s).distance == 3
  {
    hide LevelsFor, FactoryPhysical, FactoryRuntime, PerPatch, OccupiedLogicalQubits, LogicalErrorPerCycle;
    SmallMachineMeets(w, s, 3);
  }

  lemma SmallMachineMeets(w: Workload, s: Scenario, d: nat)
    requires IsSmallMachine(w, s) && d == 3
    ensures Meets(CycleBudget(1, 1, CodeAssumptions(s)), d, CodeAssumptions(s))
  {
    var x := s.errorRate / s.threshold;
    assert x * s.threshold == s.errorRate;
    assert x == 0.1;
    assert Power(x, 1) == x * Power(x, 0) && Power(x, 2) == x * Power(x, 1);
    assert (d + 1) / 2 == 2;
  }

  // ---------------------------------------------------------------- the throughput threshold

  /** The magic states a second that the thresholds ask for. */
  function MinThroughput(w: Workload, s: Scenario, target: real): Option<real>
    requires target > 0.0
  {
    if Undetermined(w, s) then None else Some(MagicStates(w, s) as real / target)
  }

  /** What the factories deliver. */
  function ThroughputOf(s: Scenario): real
    requires Admissible(s)
  {
    CycleIsPositive(s);
    s.parallelFactories as real / (s.roundsPerDistillation as real * CycleSeconds(s))
  }

  lemma CycleIsPositive(s: Scenario)
    requires Admissible(s)
    ensures CycleSeconds(s) > 0.0 && s.roundsPerDistillation as real * CycleSeconds(s) > 0.0
  {
    QuotientPositive(s.cycleTimeNs, 1000000000.0);
    ProductPositive(s.roundsPerDistillation as real, CycleSeconds(s));
  }

  /** The time the logical cycles take whatever the factories do. */
  function CycleRuntime(w: Workload, s: Scenario): real
    requires Admissible(s) && Evaluate(w, s).Feasible?
  {
    (LogicalCyclesOf(w) * Evaluate(w, s).distance) as real * CycleSeconds(s)
  }

  lemma QuotientSwap(m: real, v: real, target: real)
    requires v > 0.0 && target > 0.0
    ensures m / v <= target <==> v >= m / target
  {
    var q, p := m / v, m / target;
    assert q * v == m && p * target == m;
    assert target * v == v * target;
    OrderScaled(q, target, v);
    OrderScaled(p, v, target);
  }

  /**
   * A machine with a factory meets the target if and only if its throughput reaches the threshold and its logical
   * cycles meet the target too.
   */
  lemma ThroughputMeetsTarget(w: Workload, s: Scenario, target: real)
    requires Admissible(s) && Evaluate(w, s).Feasible? && NeedsFactory(w, s) && Evaluate(w, s).reachedTarget
      && target > 0.0
    ensures MinThroughput(w, s, target).Some? && Evaluate(w, s).runtime.Some?
    ensures Evaluate(w, s).runtime.value <= target
            <==> ThroughputOf(s) >= MinThroughput(w, s, target).value && CycleRuntime(w, s) <= target
  {
    hide LevelsFor, DistanceFor, FactoryPhysical, LogicalErrorPerCycle, PerPatch, OccupiedLogicalQubits, CycleSeconds,
         MagicStates;
    CycleIsPositive(s);
    QuotientPositive(s.parallelFactories as real, s.roundsPerDistillation as real * CycleSeconds(s));
    QuotientSwap(MagicStates(w, s) as real, ThroughputOf(s), target);
  }

  function WithFactories(s: Scenario, factories: nat, rounds: nat): Scenario {
    s.(parallelFactories := factories, roundsPerDistillation := rounds)
  }

  /** The number of factories and the rounds of a distillation change neither the distance nor the demand. */
  lemma OtherFactories(w: Workload, s: Scenario, factories: nat, rounds: nat)
    requires Admissible(s) && Evaluate(w, s).Feasible? && factories > 0 && rounds > 0
    ensures var t := WithFactories(s, factories, rounds);
      && Evaluate(w, t).Feasible? && Evaluate(w, t).reachedTarget == Evaluate(w, s).reachedTarget
      && NeedsFactory(w, t) == NeedsFactory(w, s) && MagicStates(w, t) == MagicStates(w, s)
      && CycleRuntime(w, t) == CycleRuntime(w, s)
  {
    hide LevelsFor, DistanceFor, FactoryPhysical, FactoryRuntime, LogicalErrorPerCycle, PerPatch, OccupiedLogicalQubits;
    assert CodeAssumptions(WithFactories(s, factories, rounds)) == CodeAssumptions(s);
  }

  /** Any factories as fast as the threshold asks for meet the target. */
  ghost predicate ThroughputSuffices(w: Workload, s: Scenario, target: real)
    requires Admissible(s) && target > 0.0 && !Undetermined(w, s)
  {
    forall factories: nat, rounds: nat :: factories > 0 && rounds > 0 ==>
      var t := WithFactories(s, factories, rounds);
      ThroughputOf(t) >= MinThroughput(w, s, target).value ==>
        var e := Evaluate(w, t); e.Feasible? && e.runtime.Some? && e.runtime.value <= target
  }

  lemma EnoughFactories(s: Scenario, required: real) returns (factories: nat)
    requires Admissible(s)
    ensures factories > 0 && ThroughputOf(WithFactories(s, factories, s.roundsPerDistillation)) >= required
  {
    CycleIsPositive(s);
    var per := s.roundsPerDistillation as real * CycleSeconds(s);
    var wanted := if required > 0.0 then required * per else 0.0;
    if required > 0.0 { ProductPositive(required, per); }
    factories := wanted.Floor + 1;
    var v := factories as real / per;
    assert v * per == factories as real;
    OrderScaled(required, v, per);
    if required <= 0.0 { ProductNonNegative(-required, per); assert (-required) * per == -(required * per); }
  }

  /** Reaching the threshold is enough if and only if the logical cycles alone stay within the target. */
  lemma ThroughputSufficesExactlyWhen(w: Workload, s: Scenario, target: real)
    requires Admissible(s) && Evaluate(w, s).Feasible? && NeedsFactory(w, s) && Evaluate(w, s).reachedTarget
      && target > 0.0
    ensures !Undetermined(w, s)
    ensures ThroughputSuffices(w, s, target) <==> CycleRuntime(w, s) <= target
  {
    hide Evaluate, MinThroughput, ThroughputOf, CycleRuntime;
    SameThreshold(w, s, s, target);
    if CycleRuntime(w, s) <= target {
      forall factories: nat, rounds: nat | factories > 0 && rounds > 0
        ensures var t := WithFactories(s, factories, rounds);
          ThroughputOf(t) >= MinThroughput(w, s, target).value ==>
            var e := Evaluate(w, t); e.Feasible? && e.runtime.Some? && e.runtime.value <= target
      {
        FasterMachine(w, s, target, factories, rounds);
      }
    } else {
      var factories := EnoughFactories(s, MinThroughput(w, s, target).value);
      FasterMachine(w, s, target, factories, s.roundsPerDistillation);
    }
  }

  lemma SameThreshold(w: Workload, s: Scenario, t: Scenario, target: real)
    requires target > 0.0 && MagicStates(w, t) == MagicStates(w, s)
    ensures MinThroughput(w, s, target) == MinThroughput(w, t, target)
    ensures MagicStates(w, s) > 0 ==> MinThroughput(w, s, target).Some?
  {
  }

  lemma FasterMachine(w: Workload, s: Scenario, target: real, factories: nat, rounds: nat)
    requires Admissible(s) && Evaluate(w, s).Feasible? && NeedsFactory(w, s) && Evaluate(w, s).reachedTarget
      && target > 0.0
    requires factories > 0 && rounds > 0
    ensures MinThroughput(w, s, target).Some?
    ensures var t := WithFactories(s, factories, rounds);
      && Evaluate(w, t).Feasible? && Evaluate(w, t).runtime.Some?
      && (ThroughputOf(t) >= MinThroughput(w, s, target).value ==>
            (Evaluate(w, t).runtime.value <= target <==> CycleRuntime(w, s) <= target))
  {
    hide Evaluate, MinThroughput, ThroughputOf, CycleRuntime;
    var t := WithFactories(s, factories, rounds);
    OtherFactories(w, s, factories, rounds);
    SameThreshold(w, s, t, target);
    ThroughputMeetsTarget(w, t, target);
  }
}
