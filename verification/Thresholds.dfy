/** The solved thresholds (src/intelligence/thresholds.ts:111-162, 286-335) against the estimator they invert. */
module Thresholds {
  import opened Options
  import opened RealPowers
  import opened SurfaceCode
  import opened Distillation
  import opened Estimator

  // ---------------------------------------------------------------- the footprint grows with the error rate

  /** The scenario with another error rate; raw magic states are at least as bad, and never close to the target. */
  function AtRate(s: Scenario, rate: real): Scenario {
    s.(errorRate := rate, rawStateError := Max(rate, s.targetStateError * 10.0))
  }

  predicate FitsAt(w: Workload, s: Scenario, capacity: nat, rate: real)
    requires Admissible(s) && rate >= 0.0
  {
    var e := Evaluate(w, AtRate(s, rate));
    e.Feasible? && e.totalPhysical.Some? && e.totalPhysical.value <= capacity as real
  }

  /** The machine is evaluated at that rate, with raw magic states no better than the device or ten times the target. */
  lemma FitsExactlyWhen(w: Workload, s: Scenario, capacity: nat, rate: real, raw: real)
    requires Admissible(s) && rate >= 0.0 && raw >= rate && raw >= 10.0 * s.targetStateError
    requires raw == rate || raw == 10.0 * s.targetStateError
    ensures FitsAt(w, s, capacity, rate)
       <==> var e := Evaluate(w, s.(errorRate := rate, rawStateError := raw));
            e.Feasible? && e.totalPhysical.Some? && e.totalPhysical.value <= capacity as real
  {
    hide Evaluate;
    assert AtRate(s, rate) == s.(errorRate := rate, rawStateError := raw);
  }

  lemma PerPatchMonotone(s: Scenario, d: nat, e: nat)
    requires Admissible(s) && d <= e
    ensures 0.0 <= PerPatch(s, d) <= PerPatch(s, e)
  {
    SquareMonotone(d, e);
    ProductMonotone(s.qubitsPerDSquared, s.qubitsPerDSquared, (d * d) as real, (e * e) as real);
    ProductNonNegative(s.qubitsPerDSquared, (d * d) as real);
  }

  lemma SquareMonotone(d: nat, e: nat)
    requires d <= e
    ensures d * d <= e * e
  {
    assert e * e - d * d == (e - d) * (e + d);
  }

  lemma FactoryFootprintMonotone(s: Scenario, levels: nat, more: nat, d: nat, e: nat)
    requires Admissible(s) && levels <= more && d <= e
    ensures 0.0 <= FactoryFootprint(s, levels, d) <= FactoryFootprint(s, more, e)
  {
    PerPatchMonotone(s, d, e);
    hide PerPatch;
    var p, q := PerPatch(s, d), PerPatch(s, e);
    ProductMonotone((levels * 15) as real, (more * 15) as real, p, q);
    ProductNonNegative((levels * 15) as real, p);
    ProductMonotone((levels * 15) as real * p, (more * 15) as real * q, s.parallelFactories as real,
                    s.parallelFactories as real);
    ProductNonNegative((levels * 15) as real * p, s.parallelFactories as real);
  }

  lemma FactoryPhysicalMonotone(w: Workload, low: Scenario, high: Scenario, d: nat, e: nat)
    requires Admissible(low) && high == low.(errorRate := high.errorRate, rawStateError := high.rawStateError)
    requires low.rawStateError <= high.rawStateError && low.targetStateError < high.rawStateError && d <= e
    requires FactoryPhysical(w, high, e).Some?
    ensures FactoryPhysical(w, low, d).Some?
    ensures FactoryPhysical(w, low, d).value <= FactoryPhysical(w, high, e).value
  {
    hide LevelsFor, FactoryFootprint;
    if NeedsFactory(w, low) {
      LevelsMonotone(low.rawStateError, high.rawStateError, low.targetStateError);
      var levels, more :=
        LevelsFor(low.rawStateError, low.targetStateError).levels,
          LevelsFor(high.rawStateError, low.targetStateError).levels;
      var inside := match low.factoryDistance case Some(f) => f case None => d;
      var outside := match low.factoryDistance case Some(f) => f case None => e;
      FactoryFootprintMonotone(low, levels, more, inside, outside);
      SameFootprint(low, high, more, outside);
    }
  }

  lemma SameFootprint(low: Scenario, high: Scenario, levels: nat, d: nat)
    requires high == low.(errorRate := high.errorRate, rawStateError := high.rawStateError)
    ensures FactoryFootprint(low, levels, d) == FactoryFootprint(high, levels, d)
  {
  }

  function DistanceAt(w: Workload, s: Scenario, rate: real): Option<nat>
    requires Admissible(s) && rate >= 0.0
  {
    DistanceFor(w.logicalQubits, LogicalCyclesOf(w), CodeAssumptions(AtRate(s, rate)))
  }

  function Patches(w: Workload, s: Scenario, d: nat): real {
    PerPatch(s, d) * OccupiedLogicalQubits(w.logicalQubits, s.layout) as real
  }

  /** Fitting, spelled out: a distance exists, the factory can be sized, and both fit together. */
  lemma FitsMeans(w: Workload, s: Scenario, capacity: nat, rate: real)
    requires Admissible(s) && rate >= 0.0
    ensures FitsAt(w, s, capacity, rate) <==> (
      && rate < s.threshold && DistanceAt(w, s, rate).Some?
      && var d := DistanceAt(w, s, rate).value;
         var factory := FactoryPhysical(w, AtRate(s, rate), d);
         factory.Some? && Patches(w, s, d) + factory.value <= capacity as real)
  {
    hide DistanceFor, FactoryPhysical, FactoryRuntime, LevelsFor, LogicalErrorPerCycle, CeilSqrtFrom;
  }

  /** A machine that fits at some error rate fits at every lower one. */
  lemma FitsAtLowerRates(w: Workload, s: Scenario, capacity: nat, low: real, high: real)
    requires Admissible(s) && 0.0 <= low <= high && FitsAt(w, s, capacity, high)
    ensures FitsAt(w, s, capacity, low)
  {
    hide FitsAt, DistanceFor, FactoryPhysical, PerPatch, OccupiedLogicalQubits;
    FitsMeans(w, s, capacity, low);
    FitsMeans(w, s, capacity, high);
    var a, b := AtRate(s, low), AtRate(s, high);
    DistanceMonotone(w.logicalQubits, LogicalCyclesOf(w), CodeAssumptions(a), CodeAssumptions(b));
    var d, e := DistanceAt(w, s, low).value, DistanceAt(w, s, high).value;
    FactoryPhysicalMonotone(w, a, b, d, e);
    PatchesMonotone(w, s, d, e);
  }

  lemma PatchesMonotone(w: Workload, s: Scenario, d: nat, e: nat)
    requires Admissible(s) && d <= e
    ensures Patches(w, s, d) <= Patches(w, s, e)
  {
    PerPatchMonotone(s, d, e);
    hide PerPatch;
    var occupied := OccupiedLogicalQubits(w.logicalQubits, s.layout) as real;
    ProductMonotone(PerPatch(s, d), PerPatch(s, e), occupied, occupied);
  }

  // ---------------------------------------------------------------- the bisection

  /** The geometric mean lies between, and its ratio to each end is the square root of theirs. */
  lemma Halved(low: real, high: real, middle: real)
    requires 0.0 < low < high && middle >= 0.0 && middle * middle == low * high
    ensures low < middle < high
    ensures middle / low == high / middle && (middle / low) * (middle / low) == high / low
  {
    ProductPositive(low, high);
    if middle <= low { ProductMonotone(middle, low, middle, low); ProductStrict(low, high, low, low); }
    if middle >= high { ProductMonotone(high, middle, high, middle); ProductStrict(low, high, high, high); }
    RatioOfMean(low, high, middle);
  }

  lemma RatioOfMean(low: real, high: real, middle: real)
    requires 0.0 < low && 0.0 < high && 0.0 < middle && middle * middle == low * high
    ensures middle / low == high / middle && (middle / low) * (middle / low) == high / low
  {
    var r := middle / low;
    assert r * low == middle;
    assert r * (low * middle) == middle * middle;
    assert r * middle == high;
    assert r * (r * low) == high;
    assert (r * r) * low == high;
  }

  lemma SquaredOnce(r: real, square: real, k: nat)
    requires square == r * r
    ensures Squared(r, k + 1) == Squared(square, k)
  {
  }

  lemma Halving(low: real, high: real, middle: real, index: nat)
    requires 0.0 < low < high && middle >= 0.0 && middle * middle == low * high
    ensures low < middle < high
    ensures Squared(middle / low, index + 1) == Squared(high / low, index)
    ensures Squared(high / middle, index + 1) == Squared(high / low, index)
  {
    hide Squared;
    Halved(low, high, middle);
    SquaredOnce(middle / low, high / low, index);
    SquaredOnce(high / middle, high / low, index);
  }

  const BISECTIONS: nat := 50

  /**
   * The bisection. Every rate up to the answer fits; unless the answer is the ceiling itself, some rate within one
   * part in 10^12 above it does not. Nothing is returned exactly when the floor does not fit.
   */
  method MaxErrorRateWithinCapacity(w: Workload, s: Scenario, capacity: nat, ceiling: real, sqrt: real -> real)
    returns (solved: Option<real>)
    requires Admissible(s) && ceiling > 0.0 && IsSquareRoot(sqrt)
    ensures solved.None? <==> !FitsAt(w, s, capacity, ceiling / 1000000000.0)
    ensures solved.Some? ==> (
      && 0.0 < solved.value <= ceiling
      && forall rate :: 0.0 <= rate <= solved.value ==> FitsAt(w, s, capacity, rate))
    ensures solved.Some? && solved.value < ceiling ==>
      exists high :: solved.value < high <= ceiling && !FitsAt(w, s, capacity, high)
                     && (high - solved.value) * 1000000000000.0 <= solved.value
  {
    hide FitsAt, Squared, IsSquareRoot;
    var low := ceiling / 1000000000.0;
    var high := ceiling;
    if !FitsAt(w, s, capacity, low) { return None; }
    if FitsAt(w, s, capacity, high) {
      EverythingBelow(w, s, capacity, high);
      return Some(high);
    }
    assert high / low == 1000000000.0;
    WholeBracket(1000000000.0);
    for index := 0 to BISECTIONS
      invariant 0.0 < low < high <= ceiling
      invariant FitsAt(w, s, capacity, low) && !FitsAt(w, s, capacity, high)
      invariant Squared(high / low, index) == 1000000000.0
    {
      ProductPositive(low, high);
      var middle := sqrt(low * high);
      RootLaw(sqrt, low * high);
      Halving(low, high, middle, index);
      if FitsAt(w, s, capacity, middle) {
        low := middle;
      } else {
        high := middle;
      }
    }
    EverythingBelow(w, s, capacity, low);
    Resolution(low, high, BISECTIONS);
    return Some(low);
  }

  lemma RootLaw(sqrt: real -> real, x: real)
    requires IsSquareRoot(sqrt) && x >= 0.0
    ensures sqrt(x) >= 0.0 && sqrt(x) * sqrt(x) == x
  {
  }

  lemma WholeBracket(r: real)
    ensures Squared(r, 0) == r
  {
  }

  lemma EverythingBelow(w: Workload, s: Scenario, capacity: nat, top: real)
    requires Admissible(s) && top >= 0.0 && FitsAt(w, s, capacity, top)
    ensures forall rate :: 0.0 <= rate <= top ==> FitsAt(w, s, capacity, rate)
  {
    hide FitsAt;
    forall rate | 0.0 <= rate <= top ensures FitsAt(w, s, capacity, rate) {
      FitsAtLowerRates(w, s, capacity, rate, top);
    }
  }

  lemma Resolution(low: real, high: real, k: nat)
    requires 0.0 < low < high && k == BISECTIONS && Squared(high / low, k) == 1000000000.0
    ensures (high - low) * 1000000000000.0 <= low
  {
    hide Squared;
    var e := high / low - 1.0;
    RatioMonotone(low, high, low);
    assert low / low == 1.0;
    ExcessTimes(low, high, high / low, e);
    FiftyHalvings(e, k);
    ScaledExcess(e, low);
  }

  lemma ExcessTimes(low: real, high: real, r: real, e: real)
    requires low > 0.0 && r == high / low && e == r - 1.0
    ensures e * low == high - low
  {
    assert r * low == high;
  }

  lemma ScaledExcess(e: real, low: real)
    requires e * 1000000000000.0 <= 1.0 && low > 0.0
    ensures e * low * 1000000000000.0 <= low
  {
    ProductNonNegative(1.0 - e * 1000000000000.0, low);
  }

  // ---------------------------------------------------------------- what the floor decides

  lemma SmallRatio(a: Assumptions, budget: real) returns (rate: real)
    requires WellFormed(a) && budget > 0.0
    ensures 0.0 < rate < a.threshold
    ensures Meets(budget, 3, a.(errorRate := rate))
  {
    var x := budget / a.prefactor;
    assert x * a.prefactor == budget;
    var y := if x < 0.5 then x else 0.5;
    assert x > 0.0 by { if x <= 0.0 { ProductMonotone(0.0, -x, a.prefactor, a.prefactor); } }
    rate := a.threshold * y;
    ProductPositive(a.threshold, y);
    ProductPositive(a.threshold, 1.0 - y);
    assert a.threshold * y + a.threshold * (1.0 - y) == a.threshold;
    assert rate / a.threshold == y;
    PowerDecreases(y, 1, 2);
    PowerOne(y);
    PowerNonNegative(y, 2);
    ProductMonotone(a.prefactor, a.prefactor, Power(y, 2), x);
  }

  lemma ZeroMeets(a: Assumptions, budget: real)
    requires WellFormed(a) && budget > 0.0 && a.errorRate == 0.0
    ensures Meets(budget, 3, a)
  {
    assert a.errorRate / a.threshold == 0.0;
    assert Power(0.0, 2) == 0.0;
  }

  lemma PositiveBudget(logicalQubits: nat, logicalCycles: nat, a: Assumptions)
    requires WellFormed(a) && logicalQubits > 0 && logicalCycles > 0
    ensures CycleBudget(logicalQubits, logicalCycles, a) > 0.0
  {
    var n := logicalQubits * logicalCycles;
    assert n > 0;
    assert a.errorBudget / n as real * n as real == a.errorBudget;
  }

  /** A perfect device needs the least distance, and so does some imperfect one. */
  lemma SmallRateLikeZero(w: Workload, s: Scenario) returns (rate: real)
    requires Admissible(s)
    ensures 0.0 < rate < s.threshold && rate <= s.targetStateError * 10.0
    ensures DistanceAt(w, s, rate).Some? && DistanceAt(w, s, rate) == DistanceAt(w, s, 0.0)
  {
    var cycles := LogicalCyclesOf(w);
    var a := CodeAssumptions(s);
    var limit := s.targetStateError * 10.0;
    if w.logicalQubits == 0 {
      rate := if s.threshold / 2.0 <= limit then s.threshold / 2.0 else limit;
    } else {
      var budget := CycleBudget(w.logicalQubits, cycles, a);
      PositiveBudget(w.logicalQubits, cycles, a);
      var small := SmallRatio(a, budget);
      rate := if small <= limit then small else limit;
      hide Meets, CycleBudget;
      MeetsAtLowerRate(budget, 3, a.(errorRate := rate), a.(errorRate := small));
      ZeroMeets(a.(errorRate := 0.0), budget);
      SameBudget(w.logicalQubits, cycles, a, rate);
      SameBudget(w.logicalQubits, cycles, a, 0.0);
    }
  }

  lemma SameBudget(logicalQubits: nat, logicalCycles: nat, a: Assumptions, rate: real)
    requires logicalQubits > 0 && logicalCycles > 0
    ensures CycleBudget(logicalQubits, logicalCycles, a)
      == CycleBudget(logicalQubits, logicalCycles, a.(errorRate := rate))
  {
  }

  lemma FactoryIgnoresRate(w: Workload, a: Scenario, b: Scenario, d: nat)
    requires b == a.(errorRate := b.errorRate)
    ensures FactoryPhysical(w, a, d) == FactoryPhysical(w, b, d)
  {
    hide LevelsFor, FactoryFootprint;
    var inside := match a.factoryDistance case Some(f) => f case None => d;
    SameFootprint(a, b, LevelsFor(a.rawStateError, a.targetStateError).levels, inside);
  }

  /**
   * The floor of the bisection is meant to be so low that when it does not fit, nothing does. What decides whether
   * any rate fits is the perfect device.
   */
  lemma SomeRateFits(w: Workload, s: Scenario, capacity: nat)
    requires Admissible(s)
    ensures (exists rate :: rate > 0.0 && FitsAt(w, s, capacity, rate)) <==> FitsAt(w, s, capacity, 0.0)
  {
    hide FitsAt, DistanceFor, FactoryPhysical;
    if rate :| rate > 0.0 && FitsAt(w, s, capacity, rate) {
      FitsAtLowerRates(w, s, capacity, 0.0, rate);
    }
    if FitsAt(w, s, capacity, 0.0) {
      var rate := SmallRateLikeZero(w, s);
      FitsMeans(w, s, capacity, 0.0);
      FitsMeans(w, s, capacity, rate);
      FactoryIgnoresRate(w, AtRate(s, rate), AtRate(s, 0.0), DistanceAt(w, s, rate).value);
    }
  }

  // ---------------------------------------------------------------- the closed form

  /** A host power function that takes n-th roots of numbers in [0, 1). */
  ghost predicate IsRoot(root: (real, nat) -> real) {
    forall x: real, n: nat :: 0.0 <= x && n > 0 ==> root(x, n) >= 0.0 && Power(root(x, n), n) == x
  }

  const LARGEST_EXPONENT: nat := 101

  function ScaledRoot(threshold: real, ratio: real, root: (real, nat) -> real): real {
    threshold * root(ratio, LARGEST_EXPONENT)
  }

  /** The highest error rate at which some distance meets the budget, and whether the threshold itself is the limit. */
  function MaxErrorRateForFeasibility(w: Workload, s: Scenario, root: (real, nat) -> real): (r: (real, bool))
    requires Admissible(s)
  {
    if w.logicalQubits == 0 then (s.threshold, true)
    else
      var budget := CycleBudget(w.logicalQubits, LogicalCyclesOf(w), CodeAssumptions(s));
      var ratio := budget / s.prefactor;
      if ratio >= 1.0 then (s.threshold, true) else (ScaledRoot(s.threshold, ratio, root), false)
  }

  lemma RootIsAt(root: (real, nat) -> real, x: real, n: nat)
    requires IsRoot(root) && 0.0 <= x && n > 0
    ensures root(x, n) >= 0.0 && Power(root(x, n), n) == x
  {
  }

  /** p <= p_th r exactly when (p / p_th)^n <= r^n. */
  lemma BelowRoot(p: real, threshold: real, r: real, n: nat)
    requires p >= 0.0 && threshold > 0.0 && r >= 0.0 && n > 0
    ensures p <= threshold * r <==> Power(p / threshold, n) <= Power(r, n)
  {
    var x := p / threshold;
    RatioMonotone(0.0, p, threshold);
    assert x * threshold == p;
    if x <= r {
      PowerMonotone(x, r, n);
      ProductMonotone(x, r, threshold, threshold);
    } else {
      PowerStrict(r, x, n);
      ProductStrict(r, x, threshold, threshold);
    }
  }

  lemma DividedBudget(error: real, prefactor: real, budget: real)
    requires prefactor > 0.0
    ensures prefactor * error <= budget <==> error <= budget / prefactor
  {
    var ratio := budget / prefactor;
    assert ratio * prefactor == budget;
    if error <= ratio {
      ProductNonNegative(ratio - error, prefactor);
      assert (ratio - error) * prefactor == ratio * prefactor - error * prefactor;
    } else {
      ProductPositive(error - ratio, prefactor);
      assert (error - ratio) * prefactor == error * prefactor - ratio * prefactor;
    }
  }

  lemma LargestByRatio(budget: real, a: Assumptions, ratio: real, error: real)
    requires WellFormed(a) && ratio == budget / a.prefactor
    requires error == Power(a.errorRate / a.threshold, LARGEST_EXPONENT)
    ensures Meets(budget, MAX_DISTANCE, a) <==> error <= ratio
  {
    hide Power;
    assert (MAX_DISTANCE + 1) / 2 == LARGEST_EXPONENT;
    DividedBudget(error, a.prefactor, budget);
  }

  lemma RootDecides(rate: real, threshold: real, ratio: real, root: (real, nat) -> real, error: real)
    requires IsRoot(root) && 0.0 <= rate && threshold > 0.0 && ratio >= 0.0
    requires error == Power(rate / threshold, LARGEST_EXPONENT)
    ensures error <= ratio <==> rate <= ScaledRoot(threshold, ratio, root)
  {
    hide Power;
    RootIsAt(root, ratio, LARGEST_EXPONENT);
    BelowRoot(rate, threshold, root(ratio, LARGEST_EXPONENT), LARGEST_EXPONENT);
  }

  lemma BelowThreshold(rate: real, threshold: real)
    requires 0.0 <= rate < threshold
    ensures 0.0 <= rate / threshold < 1.0
  {
    RatioMonotone(rate, threshold, threshold);
    assert threshold / threshold == 1.0;
  }

  /** The closed form inverts the search: below threshold a distance is found exactly up to the solved rate. */
  lemma ClosedFormInvertsSearch(w: Workload, s: Scenario, root: (real, nat) -> real, rate: real)
    requires Admissible(s) && IsRoot(root) && 0.0 <= rate < s.threshold
    ensures DistanceFor(w.logicalQubits, LogicalCyclesOf(w), CodeAssumptions(s.(errorRate := rate))).Some?
       <==> rate <= MaxErrorRateForFeasibility(w, s, root).0
  {
    var cycles := LogicalCyclesOf(w);
    var a := CodeAssumptions(s.(errorRate := rate));
    if w.logicalQubits > 0 {
      var budget := CycleBudget(w.logicalQubits, cycles, CodeAssumptions(s));
      var ratio := budget / s.prefactor;
      var error := Power(rate / s.threshold, LARGEST_EXPONENT);
      SameBudget(w.logicalQubits, cycles, CodeAssumptions(s), rate);
      LargestDecides(w.logicalQubits, cycles, a);
      LargestByRatio(budget, a, ratio, error);
      hide DistanceFor, CycleBudget, IsRoot, Power, Meets, ScaledRoot;
      if ratio < 1.0 {
        PositiveBudget(w.logicalQubits, cycles, CodeAssumptions(s));
        RatioMonotone(0.0, budget, s.prefactor);
        RootDecides(rate, s.threshold, ratio, root, error);
      } else {
        BelowThreshold(rate, s.threshold);
        PowerBelowOne(rate / s.threshold, LARGEST_EXPONENT);
      }
    }
  }

  // ---------------------------------------------------------------- the floor is not always low enough

  const TENTH := 0.1

  /** One logical qubit for one cycle, an error budget of 10^-101, and no magic states. */
  const TIGHT_WORKLOAD := Workload(1, 1, 0, 0, 0)

  function TightScenario(): (s: Scenario)
    ensures Admissible(s)
  {
    PowerPositive(TENTH, LARGEST_EXPONENT);
    Scenario(0.001, 1000.0, 1.0, 1.0, 2.0, Power(TENTH, LARGEST_EXPONENT), BareRegister, 4, NoFactory, 0.01, 0.0001,
             None, 1, 1)
  }

  /**
   * With a tight enough budget the solved ceiling is a tenth of the threshold, so the floor is 10^-10 of it. There the
   * least distance does not meet the budget, although it does at lower rates: a machine of 18 qubits is refused as if
   * no error rate could produce it.
   */
  lemma FloorIsNotLowEnough(root: (real, nat) -> real)
    requires IsRoot(root)
    ensures var ceiling := MaxErrorRateForFeasibility(TIGHT_WORKLOAD, TightScenario(), root).0;
      && ceiling == TENTH
      && !FitsAt(TIGHT_WORKLOAD, TightScenario(), 18, ceiling / 1000000000.0)
      && FitsAt(TIGHT_WORKLOAD, TightScenario(), 18, 0.0)
  {
    hide TightScenario, MaxErrorRateForFeasibility, FitsAt, DistanceAt, Power, IsRoot;
    TightCeiling(root);
    TightDistances();
    TightFit(0.0);
    TightFit(TENTH / 1000000000.0);
    var d := DistanceAt(TIGHT_WORKLOAD, TightScenario(), TENTH / 1000000000.0);
    if d.Some? { SquareMonotone(5, d.value); }
  }

  lemma TightBudget()
    ensures 0.0 < Power(TENTH, LARGEST_EXPONENT) < 1.0
    ensures CycleBudget(1, 1, CodeAssumptions(TightScenario())) == Power(TENTH, LARGEST_EXPONENT)
  {
    hide Power;
    PowerPositive(TENTH, LARGEST_EXPONENT);
    PowerDecreases(TENTH, 1, LARGEST_EXPONENT);
    PowerOne(TENTH);
  }

  lemma TightCeiling(root: (real, nat) -> real)
    requires IsRoot(root)
    ensures MaxErrorRateForFeasibility(TIGHT_WORKLOAD, TightScenario(), root).0 == TENTH
  {
    TightBudget();
    hide Power, IsRoot, CycleBudget;
    var x := Power(TENTH, LARGEST_EXPONENT);
    RootIsAt(root, x, LARGEST_EXPONENT);
    var r := root(x, LARGEST_EXPONENT);
    if r < TENTH { PowerStrict(r, TENTH, LARGEST_EXPONENT); }
    if r > TENTH { PowerStrict(TENTH, r, LARGEST_EXPONENT); }
    assert x / 1.0 == x;
  }

  lemma TightDistances()
    ensures DistanceAt(TIGHT_WORKLOAD, TightScenario(), 0.0) == Some(3)
    ensures var d := DistanceAt(TIGHT_WORKLOAD, TightScenario(), TENTH / 1000000000.0); d.Some? ==> d.value >= 5
  {
    var s := TightScenario();
    var budget := Power(TENTH, LARGEST_EXPONENT);
    TightBudget();
    hide Power;
    var zero := CodeAssumptions(AtRate(s, 0.0));
    var floor := CodeAssumptions(AtRate(s, TENTH / 1000000000.0));
    SameBudget(1, 1, CodeAssumptions(s), 0.0);
    SameBudget(1, 1, CodeAssumptions(s), TENTH / 1000000000.0);
    ZeroMeets(zero, budget);
    FloorMisses(floor);
    hide CycleBudget, Meets;
    SmallestAbove(5, budget, floor);
  }

  lemma FloorMisses(a: Assumptions)
    requires WellFormed(a) && a.errorRate == TENTH / 1000000000.0 && a.threshold == 1.0 && a.prefactor == 1.0
    ensures !Meets(Power(TENTH, LARGEST_EXPONENT), 3, a)
  {
    var x := a.errorRate / a.threshold;
    assert x == 0.0000000001;
    assert Power(x, 2) == 0.00000000000000000001 by { assert Power(x, 1) == x; }
    var low := Power(TENTH, 21);
    assert low == 0.000000000000000000001 by {
      assert Power(TENTH, 3) == 0.001 && Power(TENTH, 6) == 0.000001 && Power(TENTH, 12) == 0.000000000001;
    }
    hide Power;
    PowerDecreases(TENTH, 21, LARGEST_EXPONENT);
  }

  /** Without magic states only the patches count: 2 d^2 of them. */
  lemma TightFit(rate: real)
    requires 0.0 <= rate < 1.0
    ensures var d := DistanceAt(TIGHT_WORKLOAD, TightScenario(), rate);
      FitsAt(TIGHT_WORKLOAD, TightScenario(), 18, rate) <==> d.Some? && d.value * d.value <= 9
  {
    hide DistanceFor, LevelsFor, Power;
    FitsMeans(TIGHT_WORKLOAD, TightScenario(), 18, rate);
  }

  /** The closed form names the threshold as its limit exactly when every rate below the threshold finds a distance. */
  lemma SaturatedExactlyWhen(w: Workload, s: Scenario, root: (real, nat) -> real)
    requires Admissible(s) && IsRoot(root)
    ensures MaxErrorRateForFeasibility(w, s, root).1
       <==> forall rate :: 0.0 <= rate < s.threshold ==>
              DistanceFor(w.logicalQubits, LogicalCyclesOf(w), CodeAssumptions(s.(errorRate := rate))).Some?
  {
    hide DistanceFor, IsRoot;
    var limit := MaxErrorRateForFeasibility(w, s, root);
    forall rate | 0.0 <= rate < s.threshold
      ensures DistanceFor(w.logicalQubits, LogicalCyclesOf(w), CodeAssumptions(s.(errorRate := rate))).Some?
         <==> rate <= limit.0
    {
      ClosedFormInvertsSearch(w, s, root, rate);
    }
    LimitBelowThreshold(w, s, root);
    if limit.1 {
      assert limit.0 == s.threshold;
    } else {
      var between := (limit.0 + s.threshold) / 2.0;
      assert limit.0 < between < s.threshold;
      assert DistanceFor(w.logicalQubits, LogicalCyclesOf(w), CodeAssumptions(s.(errorRate := between))).None?;
    }
  }

  lemma LimitBelowThreshold(w: Workload, s: Scenario, root: (real, nat) -> real)
    requires Admissible(s) && IsRoot(root)
    ensures var limit := MaxErrorRateForFeasibility(w, s, root);
      if limit.1 then limit.0 == s.threshold else 0.0 <= limit.0 < s.threshold
  {
    if w.logicalQubits > 0 {
      var cycles := LogicalCyclesOf(w);
      PositiveBudget(w.logicalQubits, cycles, CodeAssumptions(s));
      var budget := CycleBudget(w.logicalQubits, cycles, CodeAssumptions(s));
      hide CycleBudget, IsRoot, ScaledRoot;
      var ratio := budget / s.prefactor;
      PositiveRatio(budget, s.prefactor);
      if ratio < 1.0 { RootBelowThreshold(s.threshold, ratio, root); }
    }
  }

  lemma PositiveRatio(x: real, d: real)
    requires x > 0.0 && d > 0.0
    ensures x / d > 0.0
  {
  }

  lemma RootBelowThreshold(threshold: real, ratio: real, root: (real, nat) -> real)
    requires IsRoot(root) && 0.0 <= ratio < 1.0 && threshold > 0.0
    ensures 0.0 <= ScaledRoot(threshold, ratio, root) < threshold
  {
    RootIsAt(root, ratio, LARGEST_EXPONENT);
    var r := root(ratio, LARGEST_EXPONENT);
    hide IsRoot, Power;
    if r >= 1.0 { PowerAboveOne(r, LARGEST_EXPONENT); }
    ProductNonNegative(threshold, r);
    ProductPositive(threshold, 1.0 - r);
    assert threshold * (1.0 - r) == threshold - threshold * r;
  }

  lemma PowerAboveOne(r: real, n: nat)
    requires r >= 1.0
    ensures Power(r, n) >= 1.0
  {
    PowerMonotone(1.0, r, n);
    OnePower(n);
  }

  lemma {:induction false} OnePower(n: nat)
    ensures Power(1.0, n) == 1.0
  {
    if n > 0 { OnePower(n - 1); }
  }
}
