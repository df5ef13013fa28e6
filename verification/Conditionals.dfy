/**
 * What routing loses of a conditional (src/engine/transpile.ts:257-274): the tested bit is dropped, and SWAPs stand
 * under the condition.
 */
module Conditionals {
  import opened Options
  import opened Circuits
  import opened ComplexNumbers
  import opened Semantics
  import opened OperatorLaws
  import opened Bits
  import opened RoutingSpec

  // ---------------------------------------------------------------- what a register can hold

  lemma {:induction false} RegisterBelow(register: seq<nat>, clbits: nat -> bool)
    ensures RegisterValue(register, clbits) < Pow2(|register|)
    decreases |register|
  {
    if |register| > 0 { RegisterBelow(register[1..], clbits); }
  }

  lemma {:induction false} SameBitsSameValue(register: seq<nat>, a: nat -> bool, b: nat -> bool)
    requires forall i :: 0 <= i < |register| ==> a(register[i]) == b(register[i])
    ensures RegisterValue(register, a) == RegisterValue(register, b)
    decreases |register|
  {
    if |register| > 0 {
      forall i | 0 <= i < |register[1..]| ensures a(register[1..][i]) == b(register[1..][i]) {
        assert register[1..][i] == register[i + 1];
      }
      SameBitsSameValue(register[1..], a, b);
    }
  }

  /** Every number below 2^n is some content of a register of n bits. */
  lemma {:induction false} EveryValue(register: seq<nat>, v: nat) returns (clbits: nat -> bool)
    requires DistinctQubits(register) && v < Pow2(|register|)
    ensures RegisterValue(register, clbits) == v
    decreases |register|
  {
    if |register| == 0 {
      clbits := (j: nat) => false;
    } else {
      var tail := register[1..];
      forall i, j | 0 <= i < j < |tail| ensures tail[i] != tail[j] {
        assert tail[i] == register[i + 1] && tail[j] == register[j + 1];
      }
      var rest := EveryValue(tail, v / 2);
      clbits := WithBit(rest, register[0], v % 2 == 1);
      forall i | 0 <= i < |tail| ensures clbits(tail[i]) == rest(tail[i]) { assert tail[i] == register[i + 1]; }
      SameBitsSameValue(tail, clbits, rest);
    }
  }

  lemma {:induction false} SomeBitCounts(register: seq<nat>, clbits: nat -> bool, i: nat)
    requires i < |register| && clbits(register[i])
    ensures RegisterValue(register, clbits) > 0
    ensures i > 0 ==> RegisterValue(register, clbits) > 1
    decreases |register|
  {
    if i > 0 { SomeBitCounts(register[1..], clbits, i - 1); }
  }

  lemma {:induction false} NoBitCounts(register: seq<nat>, clbits: nat -> bool)
    requires forall i :: 0 <= i < |register| ==> !clbits(register[i])
    ensures RegisterValue(register, clbits) == 0
    decreases |register|
  {
    if |register| > 0 {
      forall i | 0 <= i < |register[1..]| ensures !clbits(register[1..][i]) {
        assert register[1..][i] == register[i + 1];
      }
      NoBitCounts(register[1..], clbits);
    }
  }

  // ---------------------------------------------------------------- dropping the tested bit

  function WithoutBit(condition: Condition): Condition {
    Condition(condition.register, None, condition.equals)
  }

  predicate BitInRange(condition: Condition) {
    condition.bit.Some? ==> condition.bit.value < |condition.register|
  }

  /** The register is that bit alone, or the value is beyond both. */
  predicate DropIsHarmless(condition: Condition) {
    condition.bit.Some? ==> |condition.register| == 1 || condition.equals >= Pow2(|condition.register|)
  }

  lemma PowerGrows(n: nat)
    ensures Pow2(n) > 0 && (n > 0 ==> Pow2(n) >= 2) && (n > 1 ==> Pow2(n) >= 4)
  {
    if n > 1 { PowerGrows(n - 1); }
  }

  lemma HarmlessHolds(condition: Condition, clbits: nat -> bool)
    requires BitInRange(condition) && DropIsHarmless(condition)
    ensures Holds(condition, clbits) == Holds(WithoutBit(condition), clbits)
  {
    if condition.bit.Some? {
      RegisterBelow(condition.register, clbits);
      PowerGrows(|condition.register|);
      if |condition.register| == 1 {
        assert RegisterValue(condition.register[1..], clbits) == 0;
      }
    }
  }

  /** Classical bits on which the two conditions differ. */
  lemma HarmfulWitness(condition: Condition) returns (clbits: nat -> bool)
    requires condition.bit.Some? && BitInRange(condition) && DistinctQubits(condition.register)
      && !DropIsHarmless(condition)
    ensures Holds(condition, clbits).Some? && Holds(WithoutBit(condition), clbits).Some?
    ensures Holds(condition, clbits) != Holds(WithoutBit(condition), clbits)
  {
    var register, i := condition.register, condition.bit.value;
    if condition.equals == 0 {
      // the bit is 0, another one is 1
      clbits := (j: nat) => j != register[i];
      var other := if i == 0 then 1 else 0;
      assert register[other] != register[i];
      SomeBitCounts(register, clbits, other);
    } else if condition.equals == 1 {
      // all bits are 1
      clbits := (j: nat) => true;
      SomeBitCounts(register, clbits, 1);
    } else {
      clbits := EveryValue(register, condition.equals);
    }
  }

  /**
   * Testing the whole register in place of one of its bits is the same test, whatever the classical bits are, if and
   * only if the register has one bit or cannot hold the value at all.
   */
  lemma DroppedBitIsHarmlessWhen(condition: Condition)
    requires BitInRange(condition) && DistinctQubits(condition.register)
    ensures (forall clbits: nat -> bool :: Holds(condition, clbits) == Holds(WithoutBit(condition), clbits))
            <==> DropIsHarmless(condition)
  {
    hide Holds, DropIsHarmless;
    if DropIsHarmless(condition) {
      forall clbits: nat -> bool ensures Holds(condition, clbits) == Holds(WithoutBit(condition), clbits) {
        HarmlessHolds(condition, clbits);
      }
    } else {
      NoBitNoHarm(condition);
      var clbits := HarmfulWitness(condition);
    }
  }

  lemma NoBitNoHarm(condition: Condition)
    ensures condition.bit.None? ==> DropIsHarmless(condition)
  {
  }

  /** The only condition that cannot fail: an empty register compared with 0. */
  predicate CannotFail(condition: Condition) {
    |condition.register| == 0 && condition.equals == 0
  }

  lemma CannotFailHolds(condition: Condition, clbits: nat -> bool)
    requires CannotFail(condition)
    ensures Holds(WithoutBit(condition), clbits) == Some(true)
  {
  }

  /** Classical bits on which both conditions fail. */
  lemma FailingWitness(condition: Condition) returns (clbits: nat -> bool)
    requires BitInRange(condition) && !CannotFail(condition)
    ensures Holds(condition, clbits) == Some(false) && Holds(WithoutBit(condition), clbits) == Some(false)
  {
    var register := condition.register;
    if condition.equals == 0 {
      clbits := (j: nat) => true;
      SomeBitCounts(register, clbits, 0);
    } else {
      clbits := (j: nat) => false;
      NoBitCounts(register, clbits);
    }
  }

  // ---------------------------------------------------------------- bodies that do nothing

  /** A barrier, or a gate whose matrix is the identity: running it or not makes no difference. */
  predicate IsInert(trig: Trig, body: Simple) {
    match body
    case Barrier(_) => true
    case Apply(gate) =>
      var op := OperatorOf(trig, gate);
      op.Some? && op.value.Matrix? && op.value.m == IDENTITY
    case _ => false
  }

  lemma InertStep(trig: Trig, outcome: nat -> bool, body: Simple, w: World)
    requires IsInert(trig, body)
    ensures var next := StepSimple(trig, outcome, body, w);
      && next.Some? && next.value.clbits == w.clbits && next.value.draws == w.draws
      && forall k: set<int> :: next.value.state(k) == w.state(k)
  {
    hide OperatorOf, After, Scale;
    match body {
      case Barrier(_) =>
      case Apply(gate) =>
        var op := OperatorOf(trig, gate).value;
        assert op == Matrix(IDENTITY, op.controls, op.target);
        IdentityLaw(op.controls, op.target, w.state);
        forall k: set<int> ensures After(op, w.state)(k) == w.state(k) {
          SignedAt(1.0, w.state, After(op, w.state), k);
          ScaleOne(w.state(k));
        }
    }
  }

  // ---------------------------------------------------------------- what survives routing

  /**
   * Nothing of the operation is lost: no SWAP stands under a condition that can fail, and dropping the tested bit
   * changes nothing, or nothing that matters.
   */
  predicate IsTransparent(trig: Trig, operation: Operation, path: seq<nat>) {
    operation.Conditional? ==>
      var condition := operation.condition;
      && BitInRange(condition)
      && (IsTwoQubitGate(operation.body) ==> |path| <= 2 || CannotFail(condition))
      && (DropIsHarmless(condition) || IsInert(trig, operation.body))
  }

  predicate AllTransparent(trig: Trig, operations: seq<Operation>, paths: seq<seq<nat>>)
    requires |paths| == |operations|
  {
    forall k :: 0 <= k < |operations| ==> IsTransparent(trig, operations[k], paths[k])
  }

  lemma TransparentSplit(trig: Trig, operations: seq<Operation>, paths: seq<seq<nat>>)
    requires |paths| == |operations| > 0 && AllTransparent(trig, operations, paths)
    ensures IsTransparent(trig, operations[0], paths[0]) && AllTransparent(trig, operations[1..], paths[1..])
  {
    hide IsTransparent;
    forall k | 0 <= k < |operations| - 1 ensures IsTransparent(trig, operations[1..][k], paths[1..][k]) {
      assert IsTransparent(trig, operations[k + 1], paths[k + 1]);
    }
  }

  /** Direct conditionals, which erasing gives back, are transparent. */
  lemma DirectIsTransparent(trig: Trig, operations: seq<Operation>, paths: seq<seq<nat>>)
    requires |paths| == |operations| && AllDirect(operations, paths)
    ensures AllTransparent(trig, operations, paths)
  {
    hide IsInert;
    forall k | 0 <= k < |operations| ensures IsTransparent(trig, operations[k], paths[k]) {
      assert Direct(operations[k], paths[k]);
    }
  }

  // ---------------------------------------------------------------- bodies that show

  /** Two branches that some observation inside the register tells apart. */
  ghost predicate Differ(width: nat, a: World, b: World) {
    || a.draws != b.draws
    || exists j: set<int> :: InsideWidth(j, width) && a.state(j) != b.state(j)
  }

  predicate InsideWidth(j: set<int>, width: nat) {
    forall x :: x in j ==> 0 <= x < width
  }

  lemma MatrixShows(m: Matrix2, controls: set<int>, target: int, width: nat) returns (psi: State, j: set<int>)
    requires m != IDENTITY && target !in controls && 0 <= target < width && forall c :: c in controls ==> 0 <= c < width
    ensures InsideWidth(j, width) && After(Matrix(m, controls, target), psi)(j) != psi(j)
  {
    hide After, Mul, Add;
    var low, high := controls, controls + {target};
    assert low - {target} == low && low + {target} == high && high - {target} == low && high + {target} == high
      && low != high;
    var column := m.m00 == ONE && m.m10 == ZERO;
    psi := BasisState(if column then high else low);
    MatrixAt(m, controls, target, psi, low);
    MatrixAt(m, controls, target, psi, high);
    MulOne(m.m00); MulOne(m.m01); MulOne(m.m10); MulOne(m.m11);
    MulZero(m.m00); MulZero(m.m01); MulZero(m.m10); MulZero(m.m11);
    AddZero(m.m00); AddZero(m.m01); AddZero(m.m10); AddZero(m.m11);
    if After(Matrix(m, controls, target), psi)(low) != psi(low) { j := low; } else { j := high; }
  }

  lemma ExchangeShows(a: int, b: int, width: nat) returns (psi: State, j: set<int>)
    requires a != b && 0 <= a < width && 0 <= b < width
    ensures InsideWidth(j, width) && After(Exchange({}, a, b), psi)(j) != psi(j)
  {
    hide After;
    j := {a};
    psi := BasisState(j);
    AfterSwap({}, a, b, psi, j);
    assert b in SwapMembers(j, a, b) && b !in j;
  }

  lemma GateShape(trig: Trig, gate: Gate, width: nat)
    requires Routable(Apply(gate), width) && OperatorOf(trig, gate).Some?
    ensures match OperatorOf(trig, gate).value
      case Matrix(_, controls, target) =>
        target !in controls && 0 <= target < width && forall c :: c in controls ==> 0 <= c < width
      case Exchange(controls, a, b) => controls == {} && a != b && 0 <= a < width && 0 <= b < width
  {
    hide SingleQubitMatrix, Angles;
  }

  /** A body that is not inert changes some starting branch visibly, unless the engine refuses it. */
  lemma BodyShows(trig: Trig, body: Simple, width: nat) returns (psi: State)
    requires Routable(body, width) && !IsInert(trig, body)
    ensures forall outcome: nat -> bool, w: World ::
      w.state == psi && StepSimple(trig, outcome, body, w).Some? ==>
        Differ(width, StepSimple(trig, outcome, body, w).value, w)
  {
    hide OperatorOf, After, Project, Routable;
    psi := ZeroState();
    match body {
      case Measure(_, _) =>
      case Reset(_) =>
      case Apply(gate) =>
        if OperatorOf(trig, gate).Some? {
          var op := OperatorOf(trig, gate).value;
          GateShape(trig, gate, width);
          var j;
          if op.Matrix? {
            psi, j := MatrixShows(op.m, op.controls, op.target, width);
          } else {
            psi, j := ExchangeShows(op.a, op.b, width);
          }
        }
    }
  }
}
