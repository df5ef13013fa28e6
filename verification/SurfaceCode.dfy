/** The code distance a surface-code machine needs (src/engine/fault-tolerant.ts:217-247). */
module SurfaceCode {
  import opened Options
  import opened RealPowers

  const MAX_DISTANCE: nat := 201

  datatype Assumptions = Assumptions(errorRate: real, errorBudget: real, threshold: real, prefactor: real)

  predicate WellFormed(a: Assumptions) {
    a.errorRate >= 0.0 && a.errorBudget > 0.0 && a.threshold > 0.0 && a.prefactor > 0.0
  }

  /** A (p / p_th)^((d + 1) / 2), for odd distances. */
  function LogicalErrorPerCycle(distance: nat, a: Assumptions): real
    requires WellFormed(a)
  {
    a.prefactor * Power(a.errorRate / a.threshold, (distance + 1) / 2)
  }

  function CycleBudget(logicalQubits: nat, logicalCycles: nat, a: Assumptions): real
    requires logicalQubits > 0 && logicalCycles > 0
  {
    a.errorBudget / (logicalQubits * logicalCycles) as real
  }

  predicate Meets(budget: real, distance: nat, a: Assumptions)
    requires WellFormed(a)
  {
    LogicalErrorPerCycle(distance, a) <= budget
  }

  /** The search from one distance upwards. */
  function SmallestFrom(distance: nat, budget: real, a: Assumptions): Option<nat>
    requires WellFormed(a)
    decreases MAX_DISTANCE + 2 - distance
  {
    if distance > MAX_DISTANCE then None
    else if Meets(budget, distance, a) then Some(distance)
    else SmallestFrom(distance + 2, budget, a)
  }

  function DistanceFor(logicalQubits: nat, logicalCycles: nat, a: Assumptions): Option<nat>
    requires WellFormed(a)
  {
    if a.errorRate >= a.threshold then None
    else if logicalQubits == 0 || logicalCycles == 0 then Some(1)
    else SmallestFrom(3, CycleBudget(logicalQubits, logicalCycles, a), a)
  }

  method RequiredCodeDistance(logicalQubits: nat, logicalCycles: nat, a: Assumptions) returns (distance: Option<nat>)
    requires WellFormed(a)
    ensures distance == DistanceFor(logicalQubits, logicalCycles, a)
  {
    hide Meets;
    if a.errorRate >= a.threshold { return None; }
    if logicalQubits == 0 || logicalCycles == 0 { return Some(1); }
    var budget := CycleBudget(logicalQubits, logicalCycles, a);
    var d := 3;
    while d <= MAX_DISTANCE
      invariant SmallestFrom(3, budget, a) == SmallestFrom(d, budget, a)
    {
      if Meets(budget, d, a) { return Some(d); }
      d := d + 2;
    }
    return None;
  }

  predicate IsCandidate(d: nat) {
    3 <= d <= MAX_DISTANCE && d % 2 == 1
  }

  /** The search returns the least odd distance that meets the budget, or nothing when none within the bound does. */
  lemma {:induction false} SmallestIsLeast(from: nat, budget: real, a: Assumptions)
    requires WellFormed(a) && from % 2 == 1 && from >= 3
    ensures match SmallestFrom(from, budget, a)
      case Some(d) =>
        && IsCandidate(d) && from <= d && Meets(budget, d, a)
        && forall e: nat :: IsCandidate(e) && from <= e < d ==> !Meets(budget, e, a)
      case None => forall e: nat :: IsCandidate(e) && from <= e ==> !Meets(budget, e, a)
    decreases MAX_DISTANCE + 2 - from
  {
    hide Meets;
    if from <= MAX_DISTANCE && !Meets(budget, from, a) { SmallestIsLeast(from + 2, budget, a); }
  }

  lemma LeastDistance(logicalQubits: nat, logicalCycles: nat, a: Assumptions)
    requires WellFormed(a) && a.errorRate < a.threshold && logicalQubits > 0 && logicalCycles > 0
    ensures var budget := CycleBudget(logicalQubits, logicalCycles, a);
      match DistanceFor(logicalQubits, logicalCycles, a)
      case Some(d) =>
        IsCandidate(d) && Meets(budget, d, a) && forall e: nat :: IsCandidate(e) && e < d ==> !Meets(budget, e, a)
      case None => forall e: nat :: IsCandidate(e) ==> !Meets(budget, e, a)
  {
    hide Meets, CycleBudget, SmallestFrom;
    SmallestIsLeast(3, CycleBudget(logicalQubits, logicalCycles, a), a);
  }

  // ---------------------------------------------------------------- monotone in the error rate

  lemma RatioMonotone(x: real, y: real, t: real)
    requires 0.0 <= x <= y && t > 0.0
    ensures 0.0 <= x / t <= y / t
    ensures x < y ==> x / t < y / t
  {
    assert x / t * t == x && y / t * t == y;
  }

  lemma MeetsAtLowerRate(budget: real, distance: nat, low: Assumptions, high: Assumptions)
    requires WellFormed(low) && low.errorRate <= high.errorRate && high == low.(errorRate := high.errorRate)
    requires Meets(budget, distance, high)
    ensures Meets(budget, distance, low)
  {
    var n := (distance + 1) / 2;
    RatioMonotone(low.errorRate, high.errorRate, low.threshold);
    var x, y := low.errorRate / low.threshold, high.errorRate / low.threshold;
    PowerMonotone(x, y, n);
    PowerNonNegative(x, n);
    ProductMonotone(low.prefactor, low.prefactor, Power(x, n), Power(y, n));
  }

  lemma {:induction false} SmallestMonotone(from: nat, budget: real, low: Assumptions, high: Assumptions)
    requires WellFormed(low) && low.errorRate <= high.errorRate && high == low.(errorRate := high.errorRate)
    ensures SmallestFrom(from, budget, high).Some? ==>
              && SmallestFrom(from, budget, low).Some?
              && SmallestFrom(from, budget, low).value <= SmallestFrom(from, budget, high).value
    decreases MAX_DISTANCE + 2 - from
  {
    hide Meets;
    if from <= MAX_DISTANCE {
      if Meets(budget, from, high) { MeetsAtLowerRate(budget, from, low, high); }
      SmallestMonotone(from + 2, budget, low, high);
      SmallestAbove(from + 2, budget, high);
    }
  }

  lemma {:induction false} SmallestAbove(from: nat, budget: real, a: Assumptions)
    requires WellFormed(a)
    ensures SmallestFrom(from, budget, a).Some? ==> SmallestFrom(from, budget, a).value >= from
    decreases MAX_DISTANCE + 2 - from
  {
    hide Meets;
    if from <= MAX_DISTANCE { SmallestAbove(from + 2, budget, a); }
  }

  /** A better device never needs a larger distance. */
  lemma DistanceMonotone(logicalQubits: nat, logicalCycles: nat, low: Assumptions, high: Assumptions)
    requires WellFormed(low) && low.errorRate <= high.errorRate && high == low.(errorRate := high.errorRate)
    ensures var d, e := DistanceFor(logicalQubits, logicalCycles, low), DistanceFor(logicalQubits, logicalCycles, high);
      e.Some? ==> d.Some? && d.value <= e.value
  {
    hide Meets, SmallestFrom;
    if logicalQubits > 0 && logicalCycles > 0 {
      SmallestMonotone(3, CycleBudget(logicalQubits, logicalCycles, low), low, high);
    }
  }

  /** Below threshold some distance meets the budget exactly when the largest one does. */
  lemma LargestDecides(logicalQubits: nat, logicalCycles: nat, a: Assumptions)
    requires WellFormed(a) && a.errorRate < a.threshold && logicalQubits > 0 && logicalCycles > 0
    ensures DistanceFor(logicalQubits, logicalCycles, a).Some?
       <==> Meets(CycleBudget(logicalQubits, logicalCycles, a), MAX_DISTANCE, a)
  {
    var budget := CycleBudget(logicalQubits, logicalCycles, a);
    hide Meets, CycleBudget, DistanceFor;
    LeastDistance(logicalQubits, logicalCycles, a);
    var d := DistanceFor(logicalQubits, logicalCycles, a);
    if d.Some? {
      LargerMeets(budget, d.value, a);
    } else {
      assert IsCandidate(MAX_DISTANCE);
    }
  }

  lemma LargerMeets(budget: real, distance: nat, a: Assumptions)
    requires WellFormed(a) && a.errorRate < a.threshold && distance <= MAX_DISTANCE && Meets(budget, distance, a)
    ensures Meets(budget, MAX_DISTANCE, a)
  {
    var x := a.errorRate / a.threshold;
    RatioMonotone(a.errorRate, a.threshold, a.threshold);
    assert a.threshold / a.threshold == 1.0;
    var m, n := (distance + 1) / 2, (MAX_DISTANCE + 1) / 2;
    PowerDecreases(x, m, n);
    PowerNonNegative(x, n);
    ProductMonotone(a.prefactor, a.prefactor, Power(x, n), Power(x, m));
  }
}
