/** What a verdict of verifyRouting says about the two circuits (src/engine/routing-verification.ts:97-200). */
module RoutingVerdict {
  import opened Bits
  import opened ComplexNumbers
  import opened Options
  import opened RealPowers
  import opened Circuits
  import opened CouplingGraph
  import opened RoutingSpec
  import opened RoutingSemantics
  import opened RoutingVerification
  import opened RoutedTrajectories
  import opened Conditionals
  import Trajectories
  import Router
  import Phases
  import OperatorLaws
  import PeepholeLimits
  import PeepholeSoundness
  import S = Semantics
  import V = Statevector

  const MAX_VERIFIABLE_QUBITS := 12

  const TOLERANCE := 0.000000001

  datatype Verdict = Equivalent | Differs | Inconclusive

  // ---------------------------------------------------------------- the coupling check

  /** A gate of two qubits, under no condition, that no coupling joins. */
  predicate IsOffCoupling(adjacency: Adjacency, operation: Operation) {
    && operation.Plain? && IsTwoQubitGate(operation.simple)
    && var first, second := operation.simple.gate.qubits[0], operation.simple.gate.qubits[1];
       !(first in adjacency && second in adjacency[first])
  }

  function OffCouplingGates(adjacency: Adjacency, operations: seq<Operation>): seq<Gate> {
    if |operations| == 0 then []
    else
      var last := operations[|operations| - 1];
      OffCouplingGates(adjacency, operations[..|operations| - 1])
        + if IsOffCoupling(adjacency, last) then [last.simple.gate] else []
  }

  lemma {:induction false} NoneIsOff(adjacency: Adjacency, operations: seq<Operation>)
    ensures OffCouplingGates(adjacency, operations) == []
       <==> forall k :: 0 <= k < |operations| ==> !IsOffCoupling(adjacency, operations[k])
    decreases |operations|
  {
    hide IsOffCoupling;
    if |operations| > 0 {
      var front := operations[..|operations| - 1];
      NoneIsOff(adjacency, front);
      assert forall k :: 0 <= k < |front| ==> front[k] == operations[k];
    }
  }

  // ---------------------------------------------------------------- the numerical comparison

  /** The squared distance of two amplitudes. */
  function Apart(z: Complex, w: Complex): (squared: real)
    ensures squared >= 0.0
  {
    Square(z.re - w.re) + Square(z.im - w.im)
  }

  predicate IsClose(z: Complex, w: Complex) {
    Apart(z, w) < TOLERANCE * TOLERANCE
  }

  /** Less than a billionth apart, in the plane. */
  lemma CloseExactlyWhen(z: Complex, w: Complex)
    ensures IsClose(z, w)
       <==> (z.re - w.re) * (z.re - w.re) + (z.im - w.im) * (z.im - w.im) < 0.000000001 * 0.000000001
  {
  }

  lemma RootBelow(sqrt: real -> real, x: real, bound: real)
    requires IsSquareRoot(sqrt) && x >= 0.0 && bound > 0.0
    ensures sqrt(x) < bound <==> x < bound * bound
  {
    var root := sqrt(x);
    assert root * root == x;
    if root < bound { SquaresOrdered(root, bound); } else { ProductMonotone(bound, root, bound, root); }
  }

  lemma SquaresOrdered(x: real, y: real)
    requires 0.0 <= x < y
    ensures x * x < y * y
  {
    ProductPositive(y - x, y + x);
    assert (y - x) * (y + x) == y * y - x * x;
  }

  /** Two pairs of arrays agree, up to the tolerance, on the first indices. */
  predicate AgreeOn(aRe: seq<real>, aIm: seq<real>, bRe: seq<real>, bIm: seq<real>, count: nat)
    requires |aRe| == |aIm| == |bRe| == |bIm| && count <= |aRe|
  {
    forall j :: 0 <= j < count ==> CloseAt(aRe, aIm, bRe, bIm, j)
  }

  predicate CloseAt(aRe: seq<real>, aIm: seq<real>, bRe: seq<real>, bIm: seq<real>, j: nat)
    requires |aRe| == |aIm| == |bRe| == |bIm| && j < |aRe|
  {
    IsClose(Complex(aRe[j], aIm[j]), Complex(bRe[j], bIm[j]))
  }

  /** The largest difference at any index. */
  method LargestDifference(sqrt: real -> real, aRe: seq<real>, aIm: seq<real>, bRe: seq<real>, bIm: seq<real>)
    returns (largest: real)
    requires IsSquareRoot(sqrt) && |aRe| == |aIm| == |bRe| == |bIm|
    ensures largest < TOLERANCE <==> AgreeOn(aRe, aIm, bRe, bIm, |aRe|)
  {
    hide Square, IsSquareRoot;
    largest := 0.0;
    for index := 0 to |aRe|
      invariant largest < TOLERANCE <==> AgreeOn(aRe, aIm, bRe, bIm, index)
    {
      var squared := Apart(Complex(aRe[index], aIm[index]), Complex(bRe[index], bIm[index]));
      RootBelow(sqrt, squared, TOLERANCE);
      assert CloseAt(aRe, aIm, bRe, bIm, index) <==> sqrt(squared) < TOLERANCE;
      if sqrt(squared) > largest {
        largest := sqrt(squared);
      }
    }
  }

  function PadTo(amplitudes: seq<real>, n: nat): (padded: seq<real>)
    ensures |padded| == Pow2(n)
    ensures forall i :: 0 <= i < Pow2(n) ==> padded[i] == if i < |amplitudes| then amplitudes[i] else 0.0
  {
    seq(Pow2(n), i requires 0 <= i < Pow2(n) => if i < |amplitudes| then amplitudes[i] else 0.0)
  }

  /** The amplitude a correctly routed state has at a basis state. */
  ghost function CarriedAmplitude(layout: Layout, psi: S.State, k: set<int>): Complex {
    if k <= Occupied(layout) then psi(Pull(layout, k)) else ZERO
  }

  /** Every amplitude of the routed state is within the tolerance of the one the final layout carries there. */
  ghost predicate IsCarriedClosely(layout: Layout, n: nat, psi: S.State, phi: S.State, width: nat) {
    forall k: nat :: k < Pow2(n) ==> IsClose(CarriedAmplitude(layout, psi, Ones(n, k)), Padded(phi, width, k))
  }

  lemma CarriedIndex(layout: Layout, n: nat, psi: S.State, k: nat)
    requires Injective(layout) && (forall l :: 0 <= l < |layout| ==> layout[l] < n) && k < Pow2(n)
    ensures |layout| <= n && LogicalIndex(Complete(layout, n), n, k) < Pow2(n)
    ensures Padded(psi, |layout|, LogicalIndex(Complete(layout, n), n, k)) == CarriedAmplitude(layout, psi, Ones(n, k))
  {
    hide Injective, Pow2;
    CompleteIsPermutation(layout, n);
    CompleteMembers(layout, n);
    LogicalIndexBelow(Complete(layout, n), n);
    var j := LogicalIndex(Complete(layout, n), n, k);
    PulledIndex(layout, n, k, j);
    LowIndex(|layout|, n, j);
  }

  /** What the comparison of the padded arrays decides. */
  lemma ComparedMeans(
    layout: Layout, n: nat, width: nat, psi: S.State, phi: S.State,
    aRe: seq<real>, aIm: seq<real>, bRe: seq<real>, bIm: seq<real>, outRe: seq<real>, outIm: seq<real>)
    requires Injective(layout) && (forall l :: 0 <= l < |layout| ==> layout[l] < n) && width <= n
    requires V.Stores(|layout|, aRe, aIm, psi) && V.Stores(width, bRe, bIm, phi)
    requires Unpermuted(PadTo(bRe, n), PadTo(bIm, n), outRe, outIm, Complete(layout, n), n)
    ensures AgreeOn(PadTo(aRe, n), PadTo(aIm, n), outRe, outIm, Pow2(n))
      <==> IsCarriedClosely(layout, n, psi, phi, width)
  {
    hide Injective, Pow2, IsClose, Complete, LogicalIndex, Occupied, Pull, Unpermuted, CarriedAmplitude, Padded,
         V.Stores;
    assert |outRe| == |outIm| == Pow2(n) by {
      UnpermutedLengths(PadTo(bRe, n), PadTo(bIm, n), outRe, outIm, Complete(layout, n), n);
    }
    if AgreeOn(PadTo(aRe, n), PadTo(aIm, n), outRe, outIm, Pow2(n)) {
      forall k: nat | k < Pow2(n) ensures IsClose(CarriedAmplitude(layout, psi, Ones(n, k)), Padded(phi, width, k)) {
        ComparedAt(layout, n, width, psi, phi, aRe, aIm, bRe, bIm, outRe, outIm, k);
        assert CloseAt(PadTo(aRe, n), PadTo(aIm, n), outRe, outIm, LogicalIndex(Complete(layout, n), n, k));
      }
    }
    if IsCarriedClosely(layout, n, psi, phi, width) {
      forall j: nat | j < Pow2(n) ensures CloseAt(PadTo(aRe, n), PadTo(aIm, n), outRe, outIm, j) {
        CompleteIsPermutation(layout, n);
        var k := LogicalIndexOnto(Complete(layout, n), n, j);
        ComparedAt(layout, n, width, psi, phi, aRe, aIm, bRe, bIm, outRe, outIm, k);
      }
    }
  }

  lemma UnpermutedLengths(re: seq<real>, im: seq<real>, outRe: seq<real>, outIm: seq<real>, layout: Layout, n: nat)
    requires Unpermuted(re, im, outRe, outIm, layout, n)
    ensures |outRe| == |outIm| == Pow2(n)
  {
  }

  lemma ComparedAt(
    layout: Layout, n: nat, width: nat, psi: S.State, phi: S.State,
    aRe: seq<real>, aIm: seq<real>, bRe: seq<real>, bIm: seq<real>, outRe: seq<real>, outIm: seq<real>, k: nat)
    requires Injective(layout) && (forall l :: 0 <= l < |layout| ==> layout[l] < n) && width <= n && k < Pow2(n)
    requires V.Stores(|layout|, aRe, aIm, psi) && V.Stores(width, bRe, bIm, phi)
    requires Unpermuted(PadTo(bRe, n), PadTo(bIm, n), outRe, outIm, Complete(layout, n), n)
    ensures var j := LogicalIndex(Complete(layout, n), n, k);
      && j < Pow2(n)
      && Complex(PadTo(aRe, n)[j], PadTo(aIm, n)[j]) == CarriedAmplitude(layout, psi, Ones(n, k))
      && Complex(outRe[j], outIm[j]) == Padded(phi, width, k)
  {
    hide Injective, Pow2, Complete, LogicalIndex, LastAmplitude, CarriedAmplitude;
    var full := Complete(layout, n);
    CarriedIndex(layout, n, psi, k);
    CompleteIsPermutation(layout, n);
    PermutationMovesEach(PadTo(bRe, n), full, n, Pow2(n), k);
    PermutationMovesEach(PadTo(bIm, n), full, n, Pow2(n), k);
  }

  // ---------------------------------------------------------------- the verdict

  /** The state the engine computes for a circuit without shots, if it accepts it. */
  ghost function Simulated(
    trig: S.Trig, sqrt: real -> real, random: nat -> real, n: nat, operations: seq<Operation>): Option<S.State>
    requires IsSquareRoot(sqrt)
  {
    var end := Trajectories.Trajectory(trig, sqrt, random, n, operations, S.InitialWorld());
    if 0 < n <= V.MAX_SIMULATED_QUBITS && !Trajectories.MeasuresAnything(operations) && end.Some?
    then Some(end.value.state) else None
  }

  function Wider(m: nat, n: nat): nat {
    if m > n then m else n
  }

  /**
   * The comparison of a routed circuit with its source. It is inconclusive exactly when a circuit is too wide or
   * refused, and says `equivalent` exactly when every gate is on a coupling edge and, from the zero state, each
   * amplitude is close to the one the final layout carries there.
   */
  method VerifyRouting(
    trig: S.Trig, sqrt: real -> real, random: nat -> real, adjacency: Adjacency, clbitCount: nat,
    original: seq<Operation>, originalWidth: nat, routed: seq<Operation>, routedWidth: nat, finalLayout: Layout)
    returns (verdict: Verdict, offCoupling: seq<Gate>)
    requires IsSquareRoot(sqrt)
    requires Trajectories.AllInRange(StripMeasurements(original), originalWidth, clbitCount)
    requires Trajectories.AllInRange(StripMeasurements(routed), routedWidth, clbitCount)
    requires |finalLayout| == originalWidth && Injective(finalLayout)
    requires forall l :: 0 <= l < |finalLayout| ==> finalLayout[l] < Wider(originalWidth, routedWidth)
    ensures offCoupling == OffCouplingGates(adjacency, routed)
    ensures originalWidth > 12 || routedWidth > 12 ==> verdict.Inconclusive?
    ensures var n := Wider(originalWidth, routedWidth);
      var psi := Simulated(trig, sqrt, random, originalWidth, StripMeasurements(original));
      var phi := Simulated(trig, sqrt, random, routedWidth, StripMeasurements(routed));
      && (verdict.Inconclusive? <==> n > MAX_VERIFIABLE_QUBITS || psi.None? || phi.None?)
      && (verdict.Equivalent? <==>
            && n <= MAX_VERIFIABLE_QUBITS && psi.Some? && phi.Some?
            && OffCouplingGates(adjacency, routed) == []
            && IsCarriedClosely(finalLayout, n, psi.value, phi.value, routedWidth))
  {
    hide Trajectories.Trajectory, Trajectories.AllInRange, IsSquareRoot, Injective, StripMeasurements, V.Stores,
         IsClose, Complete, LogicalIndex, IsCarriedClosely, LastAmplitude, Pow2;
    offCoupling := [];
    for k := 0 to |routed|
      invariant offCoupling == OffCouplingGates(adjacency, routed[..k])
    {
      assert routed[..k + 1][..k] == routed[..k];
      if IsOffCoupling(adjacency, routed[k]) {
        offCoupling := offCoupling + [routed[k].simple.gate];
      }
    }
    assert routed[..|routed|] == routed;
    var width := Wider(originalWidth, routedWidth);
    if width > MAX_VERIFIABLE_QUBITS {
      return Inconclusive, offCoupling;
    }
    var originalState := Trajectories.SimulateStatevector(
      trig, sqrt, random, originalWidth, clbitCount, StripMeasurements(original));
    if originalState.None? {
      return Inconclusive, offCoupling;
    }
    var aRe, aIm := originalState.value.real_[..], originalState.value.imaginary[..];
    var routedState :=
      Trajectories.SimulateStatevector(trig, sqrt, random, routedWidth, clbitCount, StripMeasurements(routed));
    if routedState.None? {
      return Inconclusive, offCoupling;
    }
    var bRe, bIm := routedState.value.real_[..], routedState.value.imaginary[..];
    ghost var psi := Simulated(trig, sqrt, random, originalWidth, StripMeasurements(original)).value;
    ghost var phi := Simulated(trig, sqrt, random, routedWidth, StripMeasurements(routed)).value;
    assert V.Stores(originalWidth, aRe, aIm, psi) && V.Stores(routedWidth, bRe, bIm, phi);
    var layout := CompleteLayout(finalLayout, width);
    FitsLayout(finalLayout, width);
    var moved := UnpermuteAmplitudes(PadTo(bRe, width), PadTo(bIm, width), layout, width);
    var outRe, outIm := moved.value.re[..], moved.value.im[..];
    ComparedMeans(finalLayout, width, routedWidth, psi, phi, aRe, aIm, bRe, bIm, outRe, outIm);
    var difference := LargestDifference(sqrt, PadTo(aRe, width), PadTo(aIm, width), outRe, outIm);
    verdict := if difference < TOLERANCE && |offCoupling| == 0 then Equivalent else Differs;
  }

  lemma FitsLayout(layout: Layout, n: nat)
    requires Injective(layout) && forall l :: 0 <= l < |layout| ==> layout[l] < n
    ensures |Complete(layout, n)| == n
  {
    CompleteIsPermutation(layout, n);
  }

  // ---------------------------------------------------------------- a right routing passes

  lemma SameIsClose(z: Complex)
    ensures IsClose(z, z)
  {
  }

  lemma CarriedIsClose(layout: Layout, n: nat, psi: S.State, phi: S.State)
    requires Carries(layout, psi, phi)
    ensures IsCarriedClosely(layout, n, psi, phi, n)
  {
    hide IsClose;
    forall k: nat | k < Pow2(n) ensures IsClose(CarriedAmplitude(layout, psi, Ones(n, k)), Padded(phi, n, k)) {
      SameIsClose(phi(Ones(n, k)));
    }
  }

  /**
   * A transpiled circuit whose conditionals lose nothing gets the verdict `equivalent`, unless the comparison is
   * inconclusive.
   */
  lemma TranspiledIsEquivalent(
    adjacency: Adjacency, operations: seq<Operation>, paths: seq<seq<nat>>, width: nat, t: Router.Transpiled,
    trig: S.Trig, sqrt: real -> real, random: nat -> real, n: nat, clbits: nat)
    requires Router.Reports(adjacency, operations, paths, width, t) && AllTransparent(trig, operations, paths)
    requires IsSquareRoot(sqrt) && Trajectories.AllInRange(StripMeasurements(t.operations), n, clbits)
    requires Fits(t.finalLayout, n)
    requires Simulated(trig, sqrt, random, width, StripMeasurements(operations)).Some?
    requires Simulated(trig, sqrt, random, n, StripMeasurements(t.operations)).Some?
    ensures OffCouplingGates(adjacency, t.operations) == []
    ensures IsCarriedClosely(
      t.finalLayout, n, Simulated(trig, sqrt, random, width, StripMeasurements(operations)).value,
      Simulated(trig, sqrt, random, n, StripMeasurements(t.operations)).value, n)
  {
    hide AllTransparent, Carries, Injective, SimplePaths, IsSquareRoot, Trajectories.Trajectory,
         Trajectories.AllInRange, Trajectories.MeasuresAnything, IsCarriedClosely;
    var kept, keptPaths := StripMeasurements(operations), StripPaths(operations, paths);
    Router.TranspiledIsCorrect(adjacency, operations, paths, width, t, trig, Trajectories.NoOutcome);
    Router.FittingPathsSimple(adjacency, operations, t.initialLayout, paths);
    StrippingRoutes(operations, t.initialLayout, paths);
    KeptTransparent(trig, operations, paths);
    KeptSimple(operations, paths);
    InitialCarried(t.initialLayout);
    RouteFits(kept, t.initialLayout, keptPaths, n, clbits);
    RoutedRunsAlike(trig, sqrt, random, n, clbits, kept, t.initialLayout, keptPaths, S.InitialWorld(),
                    S.InitialWorld());
    CarriedIsClose(t.finalLayout, n, Simulated(trig, sqrt, random, width, kept).value,
                   Simulated(trig, sqrt, random, n, StripMeasurements(t.operations)).value);
    LegalIsOnCoupling(adjacency, t.operations);
  }

  /**
   * Run once with the same random numbers, measurements, resets and all, a transpiled circuit whose conditionals lose
   * nothing returns the classical bits of its source, or is refused with it.
   */
  lemma TranspiledRunsAlike(
    adjacency: Adjacency, operations: seq<Operation>, paths: seq<seq<nat>>, width: nat, t: Router.Transpiled,
    trig: S.Trig, sqrt: real -> real, random: nat -> real, n: nat, clbits: nat)
    requires Router.Reports(adjacency, operations, paths, width, t) && AllTransparent(trig, operations, paths)
    requires IsSquareRoot(sqrt) && Trajectories.AllInRange(t.operations, n, clbits)
    requires Fits(t.finalLayout, n)
    ensures EndAlike(t.finalLayout, Trajectories.Trajectory(trig, sqrt, random, width, operations, S.InitialWorld()),
                     Trajectories.Trajectory(trig, sqrt, random, n, t.operations, S.InitialWorld()))
  {
    hide AllTransparent, Carries, Injective, SimplePaths, IsSquareRoot, Trajectories.Trajectory,
         Trajectories.AllInRange, EndAlike;
    Router.FittingPathsSimple(adjacency, operations, t.initialLayout, paths);
    InitialCarried(t.initialLayout);
    RouteFits(operations, t.initialLayout, paths, n, clbits);
    RoutedRunsAlike(trig, sqrt, random, n, clbits, operations, t.initialLayout, paths, S.InitialWorld(),
                    S.InitialWorld());
  }

  lemma LegalIsOnCoupling(adjacency: Adjacency, operations: seq<Operation>)
    requires AllLegal(adjacency, operations)
    ensures OffCouplingGates(adjacency, operations) == []
  {
    NoneIsOff(adjacency, operations);
    forall k | 0 <= k < |operations| ensures !IsOffCoupling(adjacency, operations[k]) {
      assert Legal(adjacency, operations[k]);
    }
  }

  // ---------------------------------------------------------------- what an accepting verdict does not say

  /** Nothing on one qubit, and a routed circuit that flips the phase of it. */
  predicate IsBlindCase(original: seq<Operation>, routed: seq<Operation>, layout: Layout) {
    original == [] && routed == [Plain(Apply(Gate(Z, [], [0])))] && layout == [0]
  }

  lemma PhaseFlip(trig: S.Trig) returns (m: S.Matrix2)
    ensures OperatorLaws.IsDiagonal(m) && m.m00 == ONE && m.m11 != ONE
    ensures S.OperatorOf(trig, Gate(Z, [], [0])) == Some(S.Matrix(m, {}, 0))
  {
    m := S.Diagonal(Complex(-1.0, 0.0));
  }

  lemma DiagonalKeepsZero(m: S.Matrix2, x: int, k: set<int>)
    requires OperatorLaws.IsDiagonal(m) && m.m00 == ONE && x == 0
    ensures S.After(S.Matrix(m, {}, x), S.ZeroState())(k) == S.ZeroState()(k)
  {
    hide S.After, Mul;
    OperatorLaws.DiagonalAt(m, x, S.ZeroState(), k);
    MulOne(ONE);
    MulZero(m.m00);
    MulZero(m.m11);
  }

  lemma FlipRun(trig: S.Trig, outcome: nat -> bool, routed: seq<Operation>, m: S.Matrix2, w: S.World)
    requires routed == [Plain(Apply(Gate(Z, [], [0])))]
      && S.OperatorOf(trig, Gate(Z, [], [0])) == Some(S.Matrix(m, {}, 0))
    ensures S.Run(trig, outcome, routed, w) == Some(w.(state := S.After(S.Matrix(m, {}, 0), w.state)))
  {
    hide S.OperatorOf, S.After;
    S.RunOne(trig, outcome, routed[0], w);
  }

  lemma BlindRuns(
    trig: S.Trig, sqrt: real -> real, random: nat -> real, n: nat, operations: seq<Operation>, end: S.World)
    requires IsSquareRoot(sqrt) && n == 1
    requires forall k :: 0 <= k < |operations| ==> operations[k].Plain? && operations[k].simple.Apply?
    requires S.Run(trig, Trajectories.NoOutcome, operations, S.InitialWorld()) == Some(end)
    ensures Simulated(trig, sqrt, random, n, StripMeasurements(operations)) == Some(end.state)
    ensures StripMeasurements(operations) == operations
  {
    hide S.Run, IsSquareRoot, Trajectories.Trajectory;
    StripKeepsAll(operations);
    Trajectories.NothingDrawn(trig, sqrt, random, Trajectories.NoOutcome, n, operations, S.InitialWorld());
  }

  /** From the uniform state the two part. */
  lemma BlindDiffers(trig: S.Trig, original: seq<Operation>, routed: seq<Operation>, layout: Layout)
    requires IsBlindCase(original, routed, layout)
    ensures !Phases.RefinesUpToFactors(trig, original, routed)
  {
    hide S.Run, S.OperatorOf, S.After, Phases.RefinesUpToFactors, Phases.Parallel, Mul;
    var m := PhaseFlip(trig);
    var w := S.World(PeepholeLimits.Uniform(), (j: nat) => false, 0);
    FlipRun(trig, Trajectories.NoOutcome, routed, m, w);
    NothingRun(trig, Trajectories.NoOutcome, w);
    var apart := S.After(S.Matrix(m, {}, 0), w.state);
    OperatorLaws.DiagonalAt(m, 0, w.state, {});
    OperatorLaws.DiagonalAt(m, 0, w.state, {0});
    MulOne(ONE);
    MulOne(m.m11);
    if Phases.RefinesUpToFactors(trig, original, routed) {
      Phases.RefinesFactorsAt(trig, original, routed, Trajectories.NoOutcome, w);
      PeepholeLimits.SameOnes(w.state, apart, {}, {0});
    }
  }

  /** The verdict looks at the zero state alone: this circuit passes as a routing of one that it does not compute. */
  lemma VerdictIsBlind(
    trig: S.Trig, sqrt: real -> real, random: nat -> real, adjacency: Adjacency, n: nat,
    original: seq<Operation>, routed: seq<Operation>, layout: Layout)
    requires IsSquareRoot(sqrt) && IsBlindCase(original, routed, layout) && n == 1
    ensures OffCouplingGates(adjacency, routed) == []
    ensures Simulated(trig, sqrt, random, n, StripMeasurements(original)).Some?
    ensures Simulated(trig, sqrt, random, n, StripMeasurements(routed)).Some?
    ensures IsCarriedClosely(
      layout, n, Simulated(trig, sqrt, random, n, StripMeasurements(original)).value,
      Simulated(trig, sqrt, random, n, StripMeasurements(routed)).value, n)
    ensures !Phases.RefinesUpToFactors(trig, original, routed)
  {
    hide S.Run, S.OperatorOf, S.After, IsSquareRoot, Simulated, Phases.RefinesUpToFactors, IsCarriedClosely, Carries;
    NoneIsOff(adjacency, routed);
    var m := PhaseFlip(trig);
    var start := S.InitialWorld();
    var phi := S.After(S.Matrix(m, {}, 0), S.ZeroState());
    NothingRun(trig, Trajectories.NoOutcome, start);
    FlipRun(trig, Trajectories.NoOutcome, routed, m, start);
    BlindRuns(trig, sqrt, random, n, original, start);
    BlindRuns(trig, sqrt, random, n, routed, start.(state := phi));
    forall k: set<int> ensures phi(k) == S.ZeroState()(k) { DiagonalKeepsZero(m, 0, k); }
    InitialCarried(layout);
    CarriesSame(layout, S.ZeroState(), S.ZeroState(), phi);
    CarriedIsClose(layout, n, S.ZeroState(), phi);
    BlindDiffers(trig, original, routed, layout);
  }

  lemma NothingRun(trig: S.Trig, outcome: nat -> bool, w: S.World)
    ensures S.Run(trig, outcome, [], w) == Some(w)
  {
  }

  lemma CarriesSame(layout: Layout, psi: S.State, phi: S.State, chi: S.State)
    requires Carries(layout, psi, phi) && forall k: set<int> :: chi(k) == phi(k)
    ensures Carries(layout, psi, chi)
  {
  }
}
