/**
 * The strided in-place kernels of src/engine/statevector.ts:155-225, 446-465 on two arrays of reals, and the gate
 * part of executeOnce. Each kernel is proved to apply the operator of Semantics; bit masks are read as the positions
 * they set, and basis index k as the set of its 1 bits.
 */
module Statevector {
  import opened Bits
  import opened ComplexNumbers
  import opened Options
  import opened Circuits
  import opened Semantics
  import opened OperatorLaws
  import opened Counting
  import opened RealPowers
  import Sums = Summation

  const MAX_SIMULATED_QUBITS := 24

  function ToSet(qubits: seq<nat>): set<int> {
    set i | 0 <= i < |qubits| :: qubits[i] as int
  }

  lemma SmallSets(qubits: seq<nat>)
    ensures ToSet([]) == {}
    ensures |qubits| >= 1 ==> ToSet([qubits[0]]) == {qubits[0] as int}
    ensures |qubits| >= 2 ==> ToSet([qubits[0], qubits[1]]) == {qubits[0] as int, qubits[1] as int}
  {
    if |qubits| >= 1 {
      var one: seq<nat> := [qubits[0]];
      assert one[0] as int in ToSet(one);
    }
    if |qubits| >= 2 {
      var two: seq<nat> := [qubits[0], qubits[1]];
      assert two[0] as int in ToSet(two) && two[1] as int in ToSet(two);
    }
  }

  // ---------------------------------------------------------------- index arithmetic

  /** The bit of weight 2^q is 1 exactly in the upper half of each block of 2 * 2^q indices. */
  lemma {:induction false} BlockBit(t: nat, q: nat, x: nat)
    requires t * (2 * Pow2(q)) <= x < t * (2 * Pow2(q)) + 2 * Pow2(q)
    ensures BitAt(x, q) <==> x >= t * (2 * Pow2(q)) + Pow2(q)
  {
    if q > 0 {
      var h := Pow2(q - 1);
      assert t * (2 * Pow2(q)) == 2 * (t * (2 * h));
      BlockBit(t, q - 1, x / 2);
    }
  }

  lemma {:induction false} BitNeedsWeight(k: nat, q: nat)
    requires BitAt(k, q)
    ensures k >= Pow2(q) && !BitAt(k - Pow2(q), q)
  {
    if q > 0 {
      BitNeedsWeight(k / 2, q - 1);
      assert k >= Pow2(q);
      var rest: nat := k - Pow2(q);
      assert rest / 2 == k / 2 - Pow2(q - 1);
      assert BitAt(rest, q) == BitAt(rest / 2, q - 1);
    }
  }

  lemma OnesSetBit(n: nat, k: nat, q: nat)
    requires !BitAt(k, q) && q < n
    ensures Ones(n, k + Pow2(q)) == Ones(n, k) + {q}
    ensures q !in Ones(n, k)
  {
    forall x ensures x in Ones(n, k + Pow2(q)) <==> x in Ones(n, k) + {q} {
      if 0 <= x {
        var i: nat := x;
        SetBit(k, q, i);
      }
    }
  }

  /** The upper member of a pair below 2^n is below 2^n. */
  lemma {:induction false} UpperInRange(n: nat, k: nat, q: nat)
    requires k < Pow2(n) && q < n && !BitAt(k, q)
    ensures k + Pow2(q) < Pow2(n)
  {
    var h := Pow2(n - 1);
    assert Pow2(n) == 2 * h;
    if q > 0 {
      UpperInRange(n - 1, k / 2, q - 1);
      var low, step := k / 2, Pow2(q - 1);
      assert k + Pow2(q) <= 2 * (low + step) + 1;
    } else {
      assert k + 1 != 2 * h;
    }
  }

  lemma OnesMember(n: nat, k: nat, i: nat)
    requires i < n
    ensures i in Ones(n, k) <==> BitAt(k, i)
  {
  }

  // ---------------------------------------------------------------- states as arrays

  /** The arrays hold the amplitudes of psi. */
  ghost predicate Stores(n: nat, re: seq<real>, im: seq<real>, psi: State) {
    && |re| == |im| == Pow2(n)
    && forall k: nat :: k < Pow2(n) ==> Complex(re[k], im[k]) == psi(Ones(n, k))
  }

  /** Both members of a pair under an active matrix operator. */
  lemma PairAfter(n: nat, m: Matrix2, controls: set<int>, q: nat, psi: State, zero: nat)
    requires q < n && !BitAt(zero, q) && controls <= Ones(n, zero)
    ensures var op, a, b := Matrix(m, controls, q), psi(Ones(n, zero)), psi(Ones(n, zero + Pow2(q)));
      && After(op, psi)(Ones(n, zero)) == Add(Mul(m.m00, a), Mul(m.m01, b))
      && After(op, psi)(Ones(n, zero + Pow2(q))) == Add(Mul(m.m10, a), Mul(m.m11, b))
  {
    hide Mul, Add, Ones;
    OnesSetBit(n, zero, q);
    var op: Operator := Matrix(m, controls, q);
    var low, high := Ones(n, zero), Ones(n, zero + Pow2(q));
    assert high - {q as int} == low && low - {q as int} == low && high + {q as int} == high;
    assert Active(op, low) && Active(op, high);
    assert Source(op, low, false) == low && Source(op, low, true) == high;
    assert Source(op, high, false) == low && Source(op, high, true) == high;
  }

  /** Both members of a pair whose controls are not all 1. */
  lemma PairIdle(n: nat, m: Matrix2, controls: set<int>, q: nat, psi: State, zero: nat)
    requires q < n && !BitAt(zero, q) && !(controls <= Ones(n, zero))
    ensures var op := Matrix(m, controls, q);
      && After(op, psi)(Ones(n, zero)) == psi(Ones(n, zero))
      && After(op, psi)(Ones(n, zero + Pow2(q))) == psi(Ones(n, zero + Pow2(q)))
  {
    hide Ones;
    OnesSetBit(n, zero, q);
    var op: Operator := Matrix(m, controls, q);
    var low, high := Ones(n, zero), Ones(n, zero + Pow2(q));
    assert high - {q as int} == low && low - {q as int} == low;
    IdleAfter(op, psi, low);
    IdleAfter(op, psi, high);
  }

  lemma ControlsBelow(n: nat, controls: seq<nat>, k: nat)
    requires forall i :: 0 <= i < |controls| ==> controls[i] < n
    ensures ToSet(controls) <= Ones(n, k) <==> forall i :: 0 <= i < |controls| ==> BitAt(k, controls[i])
  {
    if ToSet(controls) <= Ones(n, k) {
      forall i | 0 <= i < |controls| ensures BitAt(k, controls[i]) {
        assert controls[i] as int in ToSet(controls);
      }
    }
    if forall i :: 0 <= i < |controls| ==> BitAt(k, controls[i]) {
      forall x | x in ToSet(controls) ensures x in Ones(n, k) {
        var i :| 0 <= i < |controls| && controls[i] as int == x;
        OnesMember(n, k, controls[i]);
      }
    }
  }

  // ---------------------------------------------------------------- a pass over pairs

  predicate PairDone(k: nat, q: nat, cursor: nat) {
    (if BitAt(k, q) then k - Pow2(q) else k) < cursor
  }

  /** Pairs whose lower index is below the cursor hold psi', the rest still hold psi. */
  ghost predicate Paired(n: nat, q: nat, re: seq<real>, im: seq<real>, psi: State, psi': State, cursor: nat) {
    && |re| == |im| == Pow2(n)
    && forall k: nat :: k < Pow2(n) ==>
         Complex(re[k], im[k]) == if PairDone(k, q, cursor) then psi'(Ones(n, k)) else psi(Ones(n, k))
  }

  lemma PairStart(n: nat, q: nat, re: seq<real>, im: seq<real>, psi: State, psi': State)
    requires Stores(n, re, im, psi)
    ensures Paired(n, q, re, im, psi, psi', 0)
  {
    forall k: nat | k < Pow2(n) ensures !PairDone(k, q, 0) {
      if BitAt(k, q) { BitNeedsWeight(k, q); }
    }
  }

  lemma PairEnd(n: nat, q: nat, re: seq<real>, im: seq<real>, psi: State, psi': State, cursor: nat)
    requires Paired(n, q, re, im, psi, psi', cursor) && cursor >= Pow2(n)
    ensures Stores(n, re, im, psi')
  {
    forall k: nat | k < Pow2(n) ensures PairDone(k, q, cursor) {
    }
  }

  lemma PairLengths(n: nat, q: nat, re: seq<real>, im: seq<real>, psi: State, psi': State, zero: nat)
    requires Paired(n, q, re, im, psi, psi', zero) && zero < Pow2(n) && q < n && !BitAt(zero, q)
    ensures |re| == |im| == Pow2(n) && zero + Pow2(q) < Pow2(n)
    ensures Complex(re[zero], im[zero]) == psi(Ones(n, zero))
    ensures Complex(re[zero + Pow2(q)], im[zero + Pow2(q)]) == psi(Ones(n, zero + Pow2(q)))
  {
    UpperInRange(n, zero, q);
    SetBit(zero, q, q);
    assert !PairDone(zero, q, zero) && !PairDone(zero + Pow2(q), q, zero);
  }

  /** Handling the pair (zero, zero + 2^q) moves the cursor past zero. */
  lemma PairStep(
    n: nat, q: nat, re0: seq<real>, im0: seq<real>, re: seq<real>, im: seq<real>, psi: State, psi': State, zero: nat)
    requires Paired(n, q, re0, im0, psi, psi', zero) && zero < Pow2(n) && q < n && !BitAt(zero, q)
    requires |re| == |im| == Pow2(n)
    requires var one := zero + Pow2(q);
      && one < Pow2(n)
      && Complex(re[zero], im[zero]) == psi'(Ones(n, zero))
      && Complex(re[one], im[one]) == psi'(Ones(n, one))
      && forall k :: 0 <= k < Pow2(n) && k != zero && k != one ==> re[k] == re0[k] && im[k] == im0[k]
    ensures Paired(n, q, re, im, psi, psi', zero + 1)
  {
    hide Ones, Pow2;
    var one := zero + Pow2(q);
    SetBit(zero, q, q);
    forall k: nat | k < Pow2(n)
      ensures Complex(re[k], im[k]) == if PairDone(k, q, zero + 1) then psi'(Ones(n, k)) else psi(Ones(n, k))
    {
      if k != zero && k != one {
        assert PairDone(k, q, zero + 1) == PairDone(k, q, zero) by {
          if BitAt(k, q) { BitNeedsWeight(k, q); }
        }
      }
    }
  }

  /** No pair starts in the upper half of a block, so the cursor may jump to the next block. */
  lemma PairSkip(n: nat, q: nat, t: nat, re: seq<real>, im: seq<real>, psi: State, psi': State)
    requires Paired(n, q, re, im, psi, psi', t * (2 * Pow2(q)) + Pow2(q))
    ensures Paired(n, q, re, im, psi, psi', t * (2 * Pow2(q)) + 2 * Pow2(q))
  {
    hide Ones, Pow2;
    var base, stride := t * (2 * Pow2(q)), Pow2(q);
    forall k: nat | k < Pow2(n)
      ensures Complex(re[k], im[k]) == if PairDone(k, q, base + 2 * stride) then psi'(Ones(n, k)) else psi(Ones(n, k))
    {
      if BitAt(k, q) { BitNeedsWeight(k, q); }
      var low := if BitAt(k, q) then k - stride else k;
      if base <= low < base + 2 * stride {
        BlockBit(t, q, low);
      }
    }
  }

  /** A block that starts below 2^n ends below it too. */
  lemma WholeBlocks(n: nat, q: nat, t: nat)
    requires q < n && t * (2 * Pow2(q)) < Pow2(n)
    ensures t * (2 * Pow2(q)) + 2 * Pow2(q) <= Pow2(n)
  {
    hide Pow2;
    PowerSplit(n, q);
    NextMultiple(t, Pow2(n - 1 - q), 2 * Pow2(q));
  }

  lemma NextMultiple(t: nat, blocks: nat, d: nat)
    requires t * d < blocks * d
    ensures t * d + d <= blocks * d
  {
    if t >= blocks {
      MultipleMonotone(blocks, t, d);
    } else {
      MultipleMonotone(t + 1, blocks, d);
      assert (t + 1) * d == t * d + d;
    }
  }

  lemma MultipleMonotone(x: nat, y: nat, d: nat)
    requires x <= y
    ensures x * d <= y * d
  {
  }

  lemma {:induction false} PowerSplit(n: nat, q: nat)
    requires q < n
    ensures Pow2(n) == Pow2(n - 1 - q) * (2 * Pow2(q))
  {
    if q > 0 {
      PowerSplit(n - 1, q - 1);
      Twice(Pow2(n - 1 - q), 2 * Pow2(q - 1));
    }
  }

  lemma Twice(b: nat, x: nat)
    ensures b * (2 * x) == 2 * (b * x)
  {
  }

  lemma OnesEmpty(n: nat, k: nat)
    requires k < Pow2(n)
    ensures Ones(n, k) == {} <==> k == 0
  {
    if Ones(n, k) == {} {
      IndexOfBits(n, k);
      IndexOfEmpty(n);
    }
    if k == 0 {
      forall i: nat ensures !BitAt(0, i) { BitClear(0, 0, i); }
    }
  }

  lemma {:induction false} IndexOfEmpty(n: nat)
    ensures Index(n, {}) == 0
  {
    if n > 0 { IndexOfEmpty(n - 1); }
  }

  // ---------------------------------------------------------------- a pass over exchanged pairs

  /** For an index whose bits a and b differ, the member of its pair with bit a set. */
  function Representative(k: nat, a: nat, b: nat): int {
    if BitAt(k, a) then k else k - Pow2(b) + Pow2(a)
  }

  predicate ExchangeDone(k: nat, a: nat, b: nat, cursor: nat) {
    BitAt(k, a) == BitAt(k, b) || Representative(k, a, b) < cursor
  }

  ghost predicate Exchanging(
    n: nat, a: nat, b: nat, re: seq<real>, im: seq<real>, psi: State, psi': State, cursor: nat)
  {
    && |re| == |im| == Pow2(n)
    && forall k: nat :: k < Pow2(n) ==>
         Complex(re[k], im[k]) == if ExchangeDone(k, a, b, cursor) then psi'(Ones(n, k)) else psi(Ones(n, k))
  }

  /** The partner of an index with bit a set and bit b clear. */
  lemma Partner(n: nat, k: nat, a: nat, b: nat)
    requires k < Pow2(n) && a < n && b < n && a != b && BitAt(k, a) && !BitAt(k, b)
    ensures k >= Pow2(a)
    ensures var p := k - Pow2(a) + Pow2(b);
      && p < Pow2(n) && p != k && !BitAt(p, a) && BitAt(p, b) && Representative(p, a, b) == k
      && Ones(n, p) == SwapMembers(Ones(n, k), a, b) && Ones(n, k) == SwapMembers(Ones(n, p), a, b)
  {
    BitNeedsWeight(k, a);
    var low: nat := k - Pow2(a);
    OnesSetBit(n, low, a);
    SetBit(low, a, b);
    SetBit(low, b, a);
    SetBit(low, b, b);
    OnesSetBit(n, low, b);
    UpperInRange(n, low, b);
  }

  /** The pair an index belongs to when its bit a is clear and bit b set. */
  lemma PartnerBack(n: nat, k: nat, a: nat, b: nat)
    requires k < Pow2(n) && a < n && b < n && a != b && !BitAt(k, a) && BitAt(k, b)
    ensures Representative(k, a, b) >= 0 && Representative(k, a, b) < Pow2(n)
    ensures var r := Representative(k, a, b); BitAt(r, a) && !BitAt(r, b) && k == r - Pow2(a) + Pow2(b)
  {
    Partner(n, k, b, a);
  }

  lemma SameBitsFixed(n: nat, op: Operator, psi: State, k: nat)
    requires op.Exchange? && 0 <= op.a < n && 0 <= op.b < n && BitAt(k, op.a) == BitAt(k, op.b)
    ensures After(op, psi)(Ones(n, k)) == psi(Ones(n, k))
  {
    hide After, Ones;
    OnesMember(n, k, op.a);
    OnesMember(n, k, op.b);
    if op.controls <= Ones(n, k) {
      AfterSwap(op.controls, op.a, op.b, psi, Ones(n, k));
    } else {
      IdleAfter(op, psi, Ones(n, k));
    }
  }

  lemma ExchangeStart(n: nat, op: Operator, re: seq<real>, im: seq<real>, psi: State)
    requires op.Exchange? && 0 <= op.a < n && 0 <= op.b < n && op.a != op.b && Stores(n, re, im, psi)
    ensures Exchanging(n, op.a, op.b, re, im, psi, After(op, psi), 0)
  {
    hide After, Ones;
    forall k: nat | k < Pow2(n)
      ensures Complex(re[k], im[k])
        == if ExchangeDone(k, op.a, op.b, 0) then After(op, psi)(Ones(n, k)) else psi(Ones(n, k))
    {
      if BitAt(k, op.a) == BitAt(k, op.b) {
        SameBitsFixed(n, op, psi, k);
      } else if !BitAt(k, op.a) {
        PartnerBack(n, k, op.a, op.b);
      }
    }
  }

  lemma ExchangeEnd(n: nat, a: nat, b: nat, re: seq<real>, im: seq<real>, psi: State, psi': State, cursor: nat)
    requires a < n && b < n && a != b && cursor >= Pow2(n)
    requires Exchanging(n, a, b, re, im, psi, psi', cursor)
    ensures Stores(n, re, im, psi')
  {
    hide Ones;
    forall k: nat | k < Pow2(n) ensures ExchangeDone(k, a, b, cursor) {
      if BitAt(k, b) && !BitAt(k, a) { PartnerBack(n, k, a, b); }
    }
  }

  /** An index that represents no pair leaves everything as it is. */
  lemma ExchangePass(
    n: nat, a: nat, b: nat, re: seq<real>, im: seq<real>, psi: State, psi': State, index: nat)
    requires a < n && b < n && a != b && Exchanging(n, a, b, re, im, psi, psi', index)
    requires !(BitAt(index, a) && !BitAt(index, b))
    ensures Exchanging(n, a, b, re, im, psi, psi', index + 1)
  {
    hide Ones;
    forall k: nat | k < Pow2(n)
      ensures Complex(re[k], im[k]) == if ExchangeDone(k, a, b, index + 1) then psi'(Ones(n, k)) else psi(Ones(n, k))
    {
      if BitAt(k, b) && !BitAt(k, a) { PartnerBack(n, k, a, b); }
    }
  }

  /** Handling a representative and its partner. */
  lemma ExchangeStep(
    n: nat, a: nat, b: nat, re0: seq<real>, im0: seq<real>, re: seq<real>, im: seq<real>,
    psi: State, psi': State, index: nat, partner: nat)
    requires a < n && b < n && a != b && index < Pow2(n) && BitAt(index, a) && !BitAt(index, b)
    requires index >= Pow2(a) && partner == index - Pow2(a) + Pow2(b) && partner < Pow2(n)
    requires Exchanging(n, a, b, re0, im0, psi, psi', index) && |re| == |im| == Pow2(n)
    requires Complex(re[index], im[index]) == psi'(Ones(n, index))
    requires Complex(re[partner], im[partner]) == psi'(Ones(n, partner))
    requires forall k :: 0 <= k < Pow2(n) && k != index && k != partner ==> re[k] == re0[k] && im[k] == im0[k]
    ensures Exchanging(n, a, b, re, im, psi, psi', index + 1)
  {
    hide Ones, Pow2, BitAt;
    Partner(n, index, a, b);
    forall k: nat | k < Pow2(n)
      ensures Complex(re[k], im[k]) == if ExchangeDone(k, a, b, index + 1) then psi'(Ones(n, k)) else psi(Ones(n, k))
    {
      if k != index && k != partner && BitAt(k, b) && !BitAt(k, a) { PartnerBack(n, k, a, b); }
    }
  }

  /** What a representative and its partner hold, and what they should hold. */
  lemma ExchangeValues(
    n: nat, op: Operator, re: seq<real>, im: seq<real>, psi: State, index: nat, partner: nat)
    requires op.Exchange? && 0 <= op.a < n && 0 <= op.b < n && op.a != op.b && op.a !in op.controls
      && op.b !in op.controls
    requires index < Pow2(n) && BitAt(index, op.a) && !BitAt(index, op.b)
    requires index >= Pow2(op.a) && partner == index - Pow2(op.a) + Pow2(op.b) && partner < Pow2(n)
    requires Exchanging(n, op.a, op.b, re, im, psi, After(op, psi), index)
    ensures |re| == |im| == Pow2(n) && partner != index
    ensures var x, y := Complex(re[index], im[index]), Complex(re[partner], im[partner]);
      if op.controls <= Ones(n, index)
      then After(op, psi)(Ones(n, index)) == y && After(op, psi)(Ones(n, partner)) == x
      else After(op, psi)(Ones(n, index)) == x && After(op, psi)(Ones(n, partner)) == y
  {
    hide Ones, After;
    Partner(n, index, op.a, op.b);
    assert !ExchangeDone(index, op.a, op.b, index) && !ExchangeDone(partner, op.a, op.b, index);
    var here, there := Ones(n, index), Ones(n, partner);
    assert op.controls <= here <==> op.controls <= there;
    if op.controls <= here {
      AfterSwap(op.controls, op.a, op.b, psi, here);
      AfterSwap(op.controls, op.a, op.b, psi, there);
    } else {
      IdleAfter(op, psi, here);
      IdleAfter(op, psi, there);
    }
  }

  // ---------------------------------------------------------------- weights and collapse

  function Qubits(n: nat): (qubits: seq<int>)
    ensures |qubits| == n && forall i :: 0 <= i < n ==> qubits[i] == i
  {
    seq(n, i requires 0 <= i < n => i)
  }

  lemma OnesOfQubits(n: nat, k: nat)
    ensures OnesOf(Qubits(n), k) == Ones(n, k)
  {
    hide BitAt;
    forall x ensures x in OnesOf(Qubits(n), k) <==> x in Ones(n, k) {
      if x in Ones(n, k) { assert Qubits(n)[x] == x; }
    }
  }

  /** The probability that n qubits of a state are found in it at all: real, and never negative. */
  ghost function Weight(n: nat, psi: State): (weight: real)
    ensures weight >= 0.0 && Norm(Qubits(n), psi) == Complex(weight, 0.0)
  {
    SumOfWeights(Qubits(n), {}, psi);
    Norm(Qubits(n), psi).re
  }

  lemma {:induction false} SumOfWeights(ids: seq<int>, ones: set<int>, psi: State)
    ensures var sum := Sums.Sum(ids, ones, Weights(psi)); sum.im == 0.0 && sum.re >= 0.0
    decreases |ids|
  {
    if |ids| == 0 {
      SquaresNonNegative(psi(ones));
    } else {
      SumOfWeights(ids[..|ids| - 1], ones, psi);
      SumOfWeights(ids[..|ids| - 1], ones + {ids[|ids| - 1]}, psi);
    }
  }

  lemma SquaresNonNegative(z: Complex)
    ensures NormSq(z) >= 0.0
  {
  }

  function Scaled(factor: real, psi: State): State {
    (k: set<int>) => Scale(factor, psi(k))
  }

  lemma RootPositive(sqrt: real -> real, x: real)
    requires IsSquareRoot(sqrt) && x > 0.0
    ensures sqrt(x) > 0.0
  {
    assert sqrt(x) * sqrt(x) == x;
  }

  /** The state after a measurement, with norm 1 again; nothing when the outcome has no weight. */
  ghost function Collapsed(sqrt: real -> real, n: nat, psi: State, qubit: nat, outcome: bool): Option<State>
    requires IsSquareRoot(sqrt)
  {
    var branch := Project(psi, qubit, outcome);
    var weight := Weight(n, branch);
    if weight == 0.0 then None
    else
      RootPositive(sqrt, weight);
      Some(Scaled(1.0 / sqrt(weight), branch))
  }

  lemma WeightAt(psi: State, qubit: int, outcome: bool, k: set<int>)
    ensures Weights(Project(psi, qubit, outcome))(k)
      == Complex(if (qubit in k) == outcome then NormSq(psi(k)) else 0.0, 0.0)
  {
    hide NormSq;
    NothingWeighs(ZERO);
  }

  lemma NothingWeighs(z: Complex)
    requires z == ZERO
    ensures NormSq(z) == 0.0
  {
  }

  /** The loop that adds up the weight of one half. */
  lemma WeighStep(n: nat, psi: State, qubit: nat, outcome: bool, index: nat, total: real, re: real, im: real)
    requires qubit < n && Complex(re, im) == psi(Ones(n, index))
    requires Complex(total, 0.0) == RangeSum(Qubits(n), {}, Weights(Project(psi, qubit, outcome)), index)
    ensures var sum := RangeSum(Qubits(n), {}, Weights(Project(psi, qubit, outcome)), index + 1);
      && (BitAt(index, qubit) == outcome ==> sum == Complex(total + (Square(re) + Square(im)), 0.0))
      && (BitAt(index, qubit) != outcome ==> sum == Complex(total, 0.0))
  {
    hide BitAt, RangeSum, Ones, Weights, Project, Square, Add;
    var f := Weights(Project(psi, qubit, outcome));
    WeightAt(psi, qubit, outcome, Ones(n, index));
    RangeStep(Qubits(n), f, index);
    OnesOfQubits(n, index);
    OnesMember(n, index, qubit);
    ComplexReals(total, Square(re) + Square(im));
    AddZero(Complex(total, 0.0));
    assert NormSq(Complex(re, im)) == Square(re) + Square(im);
  }

  lemma WeighAll(n: nat, psi: State, total: real)
    requires Complex(total, 0.0) == RangeSum(Qubits(n), {}, Weights(psi), Pow2(n))
    ensures total == Weight(n, psi)
  {
    hide RangeSum, Pow2, Weights;
    RangeIsSum(Qubits(n), {}, Weights(psi));
  }

  /** Indices below the cursor hold psi', the rest still hold psi. */
  ghost predicate Replacing(n: nat, re: seq<real>, im: seq<real>, psi: State, psi': State, cursor: nat) {
    && |re| == |im| == Pow2(n)
    && forall k: nat :: k < Pow2(n) ==>
      Complex(re[k], im[k]) == if k < cursor then psi'(Ones(n, k)) else psi(Ones(n, k))
  }

  class StatevectorState {
    const qubitCount: nat
    const real_: array<real>
    const imaginary: array<real>

    ghost predicate Represents(psi: State)
      reads this, real_, imaginary
    {
      real_ != imaginary && Stores(qubitCount, real_[..], imaginary[..], psi)
    }

    /** |0...0> on n qubits. */
    constructor (n: nat)
      ensures qubitCount == n && fresh(real_) && fresh(imaginary) && Represents(ZeroState())
    {
      qubitCount := n;
      real_ := new real[Pow2(n)](_ => 0.0);
      imaginary := new real[Pow2(n)](_ => 0.0);
      new;
      real_[0] := 1.0;
      forall k: nat | k < Pow2(n) ensures Complex(real_[k], imaginary[k]) == ZeroState()(Ones(n, k)) {
        OnesEmpty(n, k);
      }
    }

    /** One pair of amplitudes under a 2x2 matrix. */
    method UpdatePair(m: Matrix2, zero: nat, one: nat)
      requires real_ != imaginary && zero < one < real_.Length == imaginary.Length
      modifies real_, imaginary
      ensures var a, b := Complex(old(real_[zero]), old(imaginary[zero])),
        Complex(old(real_[one]), old(imaginary[one]));
        && Complex(real_[zero], imaginary[zero]) == Add(Mul(m.m00, a), Mul(m.m01, b))
        && Complex(real_[one], imaginary[one]) == Add(Mul(m.m10, a), Mul(m.m11, b))
      ensures forall k :: 0 <= k < real_.Length && k != zero && k != one ==>
        real_[k] == old(real_[k]) && imaginary[k] == old(imaginary[k])
    {
      hide Mul, Add;
      var a, b := Complex(real_[zero], imaginary[zero]), Complex(real_[one], imaginary[one]);
      var low, high := Add(Mul(m.m00, a), Mul(m.m01, b)), Add(Mul(m.m10, a), Mul(m.m11, b));
      real_[zero], imaginary[zero] := low.re, low.im;
      real_[one], imaginary[one] := high.re, high.im;
    }

    /**
     * Applies a matrix to `target` only where every control is 1: blocks of 2 * stride, a pair per offset. With no
     * controls this is applySingleQubit.
     */
    method ApplyControlled(m: Matrix2, controls: seq<nat>, target: nat, ghost psi: State)
      requires Represents(psi) && target < qubitCount
      requires forall i :: 0 <= i < |controls| ==> controls[i] < qubitCount
      modifies real_, imaginary
      ensures Represents(After(Matrix(m, ToSet(controls), target), psi))
    {
      hide After, Ones, Pow2, BitAt;
      var n, stride := qubitCount, Pow2(target);
      ghost var psi' := After(Matrix(m, ToSet(controls), target), psi);
      ghost var t: nat := 0;
      var base := 0;
      PairStart(n, target, real_[..], imaginary[..], psi, psi');
      while base < real_.Length
        invariant base == t * (2 * stride)
        invariant Paired(n, target, real_[..], imaginary[..], psi, psi', base)
        decreases real_.Length - base
      {
        var offset := 0;
        while offset < stride
          invariant 0 <= offset <= stride && base == t * (2 * stride)
          invariant base < real_.Length
          invariant Paired(n, target, real_[..], imaginary[..], psi, psi', base + offset)
        {
          hide Paired;
          var zero := base + offset;
          BlockBit(t, target, zero);
          WholeBlocks(n, target, t);
          var one := zero + stride;
          PairLengths(n, target, real_[..], imaginary[..], psi, psi', zero);
          ControlsBelow(n, controls, zero);
          ghost var re0, im0 := real_[..], imaginary[..];
          if forall i :: 0 <= i < |controls| ==> BitAt(zero, controls[i]) {
            UpdatePair(m, zero, one);
            PairAfter(n, m, ToSet(controls), target, psi, zero);
          } else {
            PairIdle(n, m, ToSet(controls), target, psi, zero);
          }
          PairStep(n, target, re0, im0, real_[..], imaginary[..], psi, psi', zero);
          offset := offset + 1;
        }
        PairSkip(n, target, t, real_[..], imaginary[..], psi, psi');
        base := base + 2 * stride;
        t := t + 1;
      }
      PairEnd(n, target, real_[..], imaginary[..], psi, psi', base);
    }

    method ApplySingleQubit(m: Matrix2, qubit: nat, ghost psi: State)
      requires Represents(psi) && qubit < qubitCount
      modifies real_, imaginary
      ensures Represents(After(Matrix(m, {}, qubit), psi))
    {
      SmallSets([qubit]);
      ApplyControlled(m, [], qubit, psi);
    }

    /** Exchanges qubits a and b where every control is 1, visiting each pair once, from its member with bit a set. */
    method ApplyControlledSwap(controls: seq<nat>, a: nat, b: nat, ghost psi: State)
      requires Represents(psi) && a < qubitCount && b < qubitCount && a != b
      requires forall i :: 0 <= i < |controls| ==> controls[i] < qubitCount && controls[i] != a && controls[i] != b
      modifies real_, imaginary
      ensures Represents(After(Exchange(ToSet(controls), a, b), psi))
    {
      hide After, Ones, Pow2, BitAt, Exchanging, Stores;
      var n := qubitCount;
      ghost var op: Operator := Exchange(ToSet(controls), a, b);
      ghost var psi' := After(op, psi);
      ExchangeStart(n, op, real_[..], imaginary[..], psi);
      ArrayLengths(n, real_[..], imaginary[..], psi);
      for index := 0 to real_.Length
        invariant Exchanging(n, a, b, real_[..], imaginary[..], psi, psi', index)
      {
        ControlsBelow(n, controls, index);
        if BitAt(index, a) && !BitAt(index, b) {
          Partner(n, index, a, b);
          var partner := index - Pow2(a) + Pow2(b);
          ghost var re0, im0 := real_[..], imaginary[..];
          ExchangeValues(n, op, re0, im0, psi, index, partner);
          if forall i :: 0 <= i < |controls| ==> BitAt(index, controls[i]) {
            real_[index], real_[partner] := real_[partner], real_[index];
            imaginary[index], imaginary[partner] := imaginary[partner], imaginary[index];
          }
          ExchangeStep(n, a, b, re0, im0, real_[..], imaginary[..], psi, psi', index, partner);
        } else {
          ExchangePass(n, a, b, real_[..], imaginary[..], psi, psi', index);
        }
      }
      ExchangeEnd(n, a, b, real_[..], imaginary[..], psi, psi', real_.Length);
    }

    /** The probability of measuring 1. */
    method ProbabilityOfOne(qubit: nat, ghost psi: State) returns (total: real)
      requires Represents(psi) && qubit < qubitCount
      ensures total == Weight(qubitCount, Project(psi, qubit, true))
    {
      hide RangeSum, Pow2, Weights, Project, BitAt, Square, Ones;
      total := 0.0;
      RangeStart(Qubits(qubitCount), Weights(Project(psi, qubit, true)));
      for index := 0 to real_.Length
        invariant Complex(total, 0.0) == RangeSum(Qubits(qubitCount), {}, Weights(Project(psi, qubit, true)), index)
      {
        WeighStep(qubitCount, psi, qubit, true, index, total, real_[index], imaginary[index]);
        if BitAt(index, qubit) {
          total := total + (Square(real_[index]) + Square(imaginary[index]));
        }
      }
      WeighAll(qubitCount, Project(psi, qubit, true), total);
    }

    /** Clears the other half and brings the norm back to 1; refused when nothing is left. */
    method Collapse(sqrt: real -> real, qubit: nat, outcome: bool, ghost psi: State) returns (collapsed: bool)
      requires Represents(psi) && qubit < qubitCount && IsSquareRoot(sqrt)
      modifies real_, imaginary
      ensures collapsed <==> Collapsed(sqrt, qubitCount, psi, qubit, outcome).Some?
      ensures collapsed ==> Represents(Collapsed(sqrt, qubitCount, psi, qubit, outcome).value)
    {
      hide RangeSum, Pow2, Weights, BitAt, Square, Ones, IsSquareRoot;
      var n := qubitCount;
      ghost var branch := Project(psi, qubit, outcome);
      var norm := 0.0;
      RangeStart(Qubits(n), Weights(branch));
      for index := 0 to real_.Length
        invariant Replacing(n, real_[..], imaginary[..], psi, branch, index)
        invariant Complex(norm, 0.0) == RangeSum(Qubits(n), {}, Weights(branch), index)
      {
        WeighStep(n, psi, qubit, outcome, index, norm, real_[index], imaginary[index]);
        OnesMember(n, index, qubit);
        if BitAt(index, qubit) == outcome {
          norm := norm + (Square(real_[index]) + Square(imaginary[index]));
        } else {
          real_[index], imaginary[index] := 0.0, 0.0;
        }
      }
      WeighAll(n, branch, norm);
      if norm == 0.0 {
        return false;
      }
      RootPositive(sqrt, norm);
      var factor := 1.0 / sqrt(norm);
      for index := 0 to real_.Length
        invariant Replacing(n, real_[..], imaginary[..], branch, Scaled(factor, branch), index)
      {
        real_[index], imaginary[index] := factor * real_[index], factor * imaginary[index];
      }
      collapsed := true;
    }

    method ApplySwap(a: nat, b: nat, ghost psi: State)
      requires Represents(psi) && a < qubitCount && b < qubitCount
      modifies real_, imaginary
      ensures Represents(After(Exchange({}, a, b), psi))
    {
      hide After;
      if a == b {
        forall k: set<int> ensures After(Exchange({}, a, b), psi)(k) == psi(k) {
          AfterSwap({}, a, b, psi, k);
        }
        return;
      }
      SmallSets([a]);
      ApplyControlledSwap([], a, b, psi);
    }

    /** Dispatch of one gate by name and operand count; a refused gate leaves the state alone. */
    method ApplyGate(trig: Trig, gate: Gate, ghost psi: State) returns (applied: bool)
      requires Represents(psi) && DistinctQubits(gate.qubits)
      requires forall i :: 0 <= i < |gate.qubits| ==> gate.qubits[i] < qubitCount
      modifies real_, imaginary
      ensures applied <==> OperatorOf(trig, gate).Some?
      ensures applied ==> Represents(After(OperatorOf(trig, gate).value, psi))
    {
      hide After, SingleQubitMatrix, Stores, ToSet;
      var angles := Angles(gate.parameters);
      var qs := gate.qubits;
      if angles.None? {
        return false;
      }
      SmallSets(qs);
      if gate.name == Swap && |qs| == 2 {
        ApplySwap(qs[0], qs[1], psi);
        return true;
      }
      if gate.name in {Cswap, Fredkin} {
        if |qs| != 3 {
          return false;
        }
        ApplyControlledSwap([qs[0]], qs[1], qs[2], psi);
        return true;
      }
      var matrix, controls, target;
      if gate.name in {Ccx, Toffoli} {
        if |qs| != 3 {
          return false;
        }
        matrix, controls, target := SingleQubitMatrix(trig, X, []), [qs[0], qs[1]], qs[2];
      } else if IsTwoQubitName(gate.name) {
        if |qs| != 2 {
          return false;
        }
        matrix, controls, target := SingleQubitMatrix(trig, BaseName(gate.name), angles.value), [qs[0]], qs[1];
      } else {
        if |qs| != 1 {
          return false;
        }
        matrix, controls, target := SingleQubitMatrix(trig, gate.name, angles.value), [], qs[0];
      }
      if matrix.None? {
        return false;
      }
      ApplyControlled(matrix.value, controls, target, psi);
      applied := true;
    }
  }

  lemma ArrayLengths(n: nat, re: seq<real>, im: seq<real>, psi: State)
    requires Stores(n, re, im, psi)
    ensures |re| == |im| == Pow2(n)
  {
  }
}
