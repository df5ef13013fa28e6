/** 15-to-1 magic-state distillation (src/engine/distillation.ts:36-116). */
module Distillation {
  import opened Options
  import opened RealPowers

  const MAX_LEVELS: nat := 6
  const PREFACTOR := 35.0

  function DistilledError(p: real): real {
    PREFACTOR * Power(p, 3)
  }

  /** The error after k rounds. */
  function ErrorAfter(p: real, k: nat): real {
    if k == 0 then p else DistilledError(ErrorAfter(p, k - 1))
  }

  /** p >= 1 / sqrt(35): a round no longer improves the state. */
  predicate AtFixedPoint(p: real) {
    p > 0.0 && PREFACTOR * Power(p, 2) >= 1.0
  }

  datatype Levels = Levels(levels: nat, finalError: real, statesPerOutput: nat, reachedTarget: bool)

  function IntPower(b: nat, n: nat): nat {
    if n == 0 then 1 else b * IntPower(b, n - 1)
  }

  /** Rounds made from error p, until the target is met or the cap is reached. */
  function Rounds(p: real, target: real, left: nat): nat
    decreases left
  {
    if p > target && left > 0 then 1 + Rounds(DistilledError(p), target, left - 1) else 0
  }

  /** What the protocol reports, refusing to start at or above the fixed point. */
  function LevelsFor(p: real, target: real): Levels {
    if AtFixedPoint(p) then Levels(0, p, 1, p <= target)
    else
      var n := Rounds(p, target, MAX_LEVELS);
      var final := ErrorAfter(p, n);
      Levels(n, final, IntPower(15, n), final <= target)
  }

  lemma {:induction false} ErrorAfterStep(p: real, k: nat)
    ensures ErrorAfter(p, k + 1) == ErrorAfter(DistilledError(p), k)
  {
    hide DistilledError;
    if k > 0 { ErrorAfterStep(p, k - 1); }
  }

  lemma CubeMonotone(p: real, q: real)
    requires 0.0 <= p <= q
    ensures 0.0 <= DistilledError(p) <= DistilledError(q)
  {
    hide Power;
    PowerNonNegative(p, 3);
    PowerMonotone(p, q, 3);
  }

  /** One round below the fixed point improves the state; at or above it, none does. */
  lemma RoundImproves(p: real)
    requires p > 0.0
    ensures DistilledError(p) < p <==> !AtFixedPoint(p)
  {
    hide Power, DistilledError;
    Compare(PREFACTOR * Power(p, 2), p, DistilledError(p)) by { CubeIsSquareTimes(p, PREFACTOR * Power(p, 2)); }
  }

  lemma CubeIsSquareTimes(p: real, f: real)
    requires f == PREFACTOR * Power(p, 2)
    ensures DistilledError(p) == f * p
  {
    assert Power(p, 3) == p * Power(p, 2);
  }

  lemma Compare(f: real, p: real, product: real)
    requires p > 0.0 && product == f * p
    ensures product < p <==> f < 1.0
  {
    if f < 1.0 {
      ProductPositive(1.0 - f, p);
      assert (1.0 - f) * p == p - f * p;
    } else {
      ProductNonNegative(f - 1.0, p);
      assert (f - 1.0) * p == f * p - p;
    }
  }

  lemma FixedPointMonotone(p: real, q: real)
    requires 0.0 <= p <= q
    ensures AtFixedPoint(p) ==> AtFixedPoint(q)
  {
    PowerMonotone(p, q, 2);
  }

  /** At or above the fixed point no number of rounds helps, so refusing to distil loses nothing. */
  lemma {:induction false} NoRoundHelps(p: real, k: nat)
    requires AtFixedPoint(p)
    ensures ErrorAfter(p, k) >= p
  {
    if k > 0 {
      NoRoundHelps(p, k - 1);
      var q := ErrorAfter(p, k - 1);
      FixedPointMonotone(p, q);
      RoundImproves(q);
    }
  }

  /** Below it every round stays between zero and the input, so the error stays a probability. */
  lemma {:induction false} RoundsStayBelow(p: real, k: nat)
    requires 0.0 < p && !AtFixedPoint(p)
    ensures 0.0 < ErrorAfter(p, k) <= p && !AtFixedPoint(ErrorAfter(p, k))
  {
    hide AtFixedPoint;
    if k > 0 {
      RoundsStayBelow(p, k - 1);
      var q := ErrorAfter(p, k - 1);
      RoundImproves(q);
      DistilledPositive(q);
      if AtFixedPoint(DistilledError(q)) { FixedPointMonotone(DistilledError(q), p); }
    }
  }

  lemma DistilledPositive(p: real)
    requires p > 0.0
    ensures DistilledError(p) > 0.0
  {
    PowerPositive(p, 3);
  }

  // ---------------------------------------------------------------- the count is the least that suffices

  /** Rounds stops at the first round that meets the target, or at the cap. */
  lemma {:induction false} RoundsAreLeast(p: real, target: real, left: nat)
    ensures var n := Rounds(p, target, left);
      && n <= left
      && (n < left ==> ErrorAfter(p, n) <= target)
      && forall k: nat :: k < n ==> ErrorAfter(p, k) > target
    decreases left
  {
    hide DistilledError;
    if p > target && left > 0 {
      var q := DistilledError(p);
      RoundsAreLeast(q, target, left - 1);
      var n := Rounds(p, target, left);
      ErrorAfterStep(p, n - 1);
      forall k: nat | k < n ensures ErrorAfter(p, k) > target {
        if k > 0 { ErrorAfterStep(p, k - 1); }
      }
    }
  }

  /**
   * The levels reported reach the target exactly when some number of rounds within the cap does, and are the fewest.
   */
  lemma LevelsAreLeast(p: real, target: real)
    ensures var r := LevelsFor(p, target);
      && (r.reachedTarget <==> exists k: nat :: k <= MAX_LEVELS && ErrorAfter(p, k) <= target)
      && r.finalError == ErrorAfter(p, r.levels)
      && forall k: nat :: k < r.levels ==> ErrorAfter(p, k) > target
  {
    hide AtFixedPoint, ErrorAfter, Rounds, IntPower;
    if AtFixedPoint(p) {
      forall k: nat ensures ErrorAfter(p, k) >= p { NoRoundHelps(p, k); }
      NoRounds(p);
      if p <= target { assert ErrorAfter(p, 0) <= target; }
    } else {
      RoundsAreLeast(p, target, MAX_LEVELS);
      var n := Rounds(p, target, MAX_LEVELS);
      forall k: nat | k <= MAX_LEVELS && ErrorAfter(p, k) <= target ensures ErrorAfter(p, n) <= target {
        assert n <= k;
        assert n < MAX_LEVELS || n == k;
      }
    }
  }

  /** Every level takes 15 states of the level below for one. */
  lemma StatesMultiply(p: real, target: real, q: real, other: real)
    ensures LevelsFor(p, target).levels == 0 ==> LevelsFor(p, target).statesPerOutput == 1
    ensures LevelsFor(q, other).levels == LevelsFor(p, target).levels + 1 ==>
      LevelsFor(q, other).statesPerOutput == 15 * LevelsFor(p, target).statesPerOutput
  {
    hide AtFixedPoint, ErrorAfter, Rounds;
    StatesPower(p, target);
    StatesPower(q, other);
  }

  lemma StatesPower(p: real, target: real)
    ensures LevelsFor(p, target).statesPerOutput == IntPower(15, LevelsFor(p, target).levels)
  {
    hide AtFixedPoint, ErrorAfter, Rounds;
  }

  /** A level turns an error p into 35 p p p. */
  lemma CubicSuppression(p: real, k: nat)
    ensures ErrorAfter(p, 0) == p
    ensures var q := ErrorAfter(p, k); ErrorAfter(p, k + 1) == 35.0 * (q * q * q)
  {
    var q := ErrorAfter(p, k);
    assert Power(q, 3) == q * Power(q, 2) && Power(q, 2) == q * Power(q, 1) && Power(q, 1) == q * Power(q, 0);
    Cubed(q);
  }

  lemma Cubed(q: real)
    ensures q * (q * (q * 1.0)) == q * q * q
  {
  }

  lemma NoRounds(p: real)
    ensures ErrorAfter(p, 0) == p
  {
  }

  /** The counting loop, for any input error; a target that is no probability is rejected. */
  method RequiredLevels(inputError: real, targetError: real) returns (r: Option<Levels>)
    ensures r == if 0.0 < targetError < 1.0 then Some(LevelsFor(inputError, targetError)) else None
  {
    hide AtFixedPoint, DistilledError;
    if targetError <= 0.0 || targetError >= 1.0 { return None; }
    if AtFixedPoint(inputError) {
      return Some(Levels(0, inputError, 1, inputError <= targetError));
    }
    NoRounds(inputError);
    var current := inputError;
    var levels := 0;
    var states := 1;
    while current > targetError && levels < MAX_LEVELS
      invariant levels <= MAX_LEVELS
      invariant 0.0 < inputError ==> 0.0 < current <= inputError
      invariant inputError <= 0.0 ==> current == inputError
      invariant current == ErrorAfter(inputError, levels)
      invariant Rounds(inputError, targetError, MAX_LEVELS)
        == levels + Rounds(current, targetError, MAX_LEVELS - levels)
      invariant states == IntPower(15, levels)
      decreases MAX_LEVELS - levels
    {
      current := DistilledError(current);
      levels := levels + 1;
      states := 15 * states;
      RoundsStayBelow(inputError, levels);
    }
    return Some(Levels(levels, current, states, current <= targetError));
  }

  /** No round is asked for an error that is no probability: every intermediate error lies between 0 and the input. */
  lemma RoundsAreProbabilities(p: real, k: nat)
    requires 0.0 < p && !AtFixedPoint(p)
    ensures 0.0 < ErrorAfter(p, k) <= p < 1.0
  {
    RoundsStayBelow(p, k);
    BelowOne(p);
  }

  lemma BelowOne(p: real)
    requires 0.0 < p && !AtFixedPoint(p)
    ensures p < 1.0
  {
    assert Power(1.0, 2) == 1.0;
    if p >= 1.0 { PowerMonotone(1.0, p, 2); }
  }

  // ---------------------------------------------------------------- monotone in the input error

  lemma {:induction false} ErrorAfterMonotone(p: real, q: real, k: nat)
    requires 0.0 <= p <= q
    ensures 0.0 <= ErrorAfter(p, k) <= ErrorAfter(q, k)
  {
    hide DistilledError;
    if k > 0 {
      ErrorAfterMonotone(p, q, k - 1);
      CubeMonotone(ErrorAfter(p, k - 1), ErrorAfter(q, k - 1));
    }
  }

  /** When worse raw states reach the target, better ones reach it in no more levels. */
  lemma LevelsMonotone(p: real, q: real, target: real)
    requires 0.0 <= p <= q && LevelsFor(q, target).reachedTarget
    ensures LevelsFor(p, target).reachedTarget
    ensures LevelsFor(p, target).levels <= LevelsFor(q, target).levels
  {
    hide AtFixedPoint, ErrorAfter, Rounds;
    LevelsAreLeast(p, target);
    LevelsAreLeast(q, target);
    var n := LevelsFor(q, target).levels;
    RoundsAreLeast(q, target, MAX_LEVELS);
    assert ErrorAfter(q, n) <= target && n <= MAX_LEVELS;
    ErrorAfterMonotone(p, q, n);
  }
}
