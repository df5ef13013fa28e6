/**
 * Where spider fusion is wrong: gates whose name fixes their angle, carrying a parameter all the same. The parser
 * accepts such a gate (src/circuit/qasm3.ts:571-588), the engine ignores the parameter, and the optimizer adds it up.
 */
module PeepholeLimits {
  import opened Options
  import opened Circuits
  import opened ComplexNumbers
  import opened Semantics
  import opened OperatorLaws
  import opened GateLaws
  import opened PeepholeRules
  import opened Refinement
  import opened PeepholeSoundness
  import opened PeepholeSteps
  import opened Phases

  /** A state with equal amplitudes everywhere. */
  function Uniform(): State {
    (k: set<int>) => ONE
  }

  lemma DiagonalTwice(m: Matrix2, x: int)
    requires IsDiagonal(m) && m.m00 == ONE
    ensures var p: Operator := Matrix(m, {}, x);
      && (Parallel(After(p, After(p, Uniform())), After(p, Uniform())) ==> Mul(m.m11, m.m11) == m.m11)
      && (Parallel(After(p, After(p, Uniform())), Uniform()) ==> Mul(m.m11, m.m11) == ONE)
  {
    hide Mul, After;
    var p: Operator := Matrix(m, {}, x);
    var once, twice := After(p, Uniform()), After(p, After(p, Uniform()));
    DiagonalAt(m, x, Uniform(), {});
    DiagonalAt(m, x, Uniform(), {x});
    DiagonalAt(m, x, once, {});
    DiagonalAt(m, x, once, {x});
    MulOne(ONE);
    MulOne(m.m11);
    if Parallel(twice, once) { SameOnes(twice, once, {}, {x}); }
    if Parallel(twice, Uniform()) { SameOnes(twice, Uniform(), {}, {x}); }
  }

  /** Parallel states with the same amplitude one somewhere are the same everywhere. */
  lemma SameOnes(psi: State, phi: State, at: set<int>, k: set<int>)
    requires Parallel(psi, phi) && psi(at) == ONE && phi(at) == ONE
    ensures psi(k) == phi(k)
  {
    hide Mul;
    var c: Complex :| c != ZERO && Proportional(c, psi, phi);
    ProportionalAt(c, psi, phi, at);
    ProportionalAt(c, psi, phi, k);
    MulOne(c);
    MulComm(c, ONE);
    MulOne(psi(k));
  }

  lemma XFormTwice(m: Matrix2, x: int)
    requires IsXForm(m)
    ensures var p: Operator := Matrix(m, {}, x);
      var corner := Add(Mul(m.m00, m.m00), Mul(m.m01, m.m01));
      && (Parallel(After(p, After(p, ZeroState())), After(p, ZeroState())) ==> (m.m00 == ZERO <==> corner == ZERO))
      && (Parallel(After(p, After(p, ZeroState())), ZeroState()) ==> corner != ZERO)
  {
    hide Mul, Add, After, IsXForm, Parallel;
    var p: Operator := Matrix(m, {}, x);
    var once, twice := After(p, ZeroState()), After(p, After(p, ZeroState()));
    assert Flip({}, x) == {x} && Flip({x}, x) == {};
    XFormAt(m, x, ZeroState(), {});
    XFormAt(m, x, ZeroState(), {x});
    XFormAt(m, x, once, {});
    MulOne(m.m00); MulOne(m.m01); MulZero(m.m00); MulZero(m.m01);
    AddZero(m.m00); AddZero(m.m01);
    if Parallel(twice, once) { SameZeros(twice, once, {}); }
    if Parallel(twice, ZeroState()) { SameZeros(twice, ZeroState(), {}); }
  }

  lemma SameZeros(psi: State, phi: State, k: set<int>)
    requires Parallel(psi, phi)
    ensures psi(k) == ZERO <==> phi(k) == ZERO
  {
    hide Mul;
    var c: Complex :| c != ZERO && Proportional(c, psi, phi);
    ProportionalAt(c, psi, phi, k);
    MulZero(c);
    if psi(k) != ZERO { MulNonZero(c, psi(k)); }
  }

  // ---------------------------------------------------------------- the matrices themselves

  predicate IsFixedName(name: GateName) {
    name in {Z, S, Sdg, T, Tdg, X, Sx}
  }

  lemma PhaseSquare(h: real, name: GateName)
    requires IsRootHalf(h) && name in {Z, S, Sdg, T, Tdg}
    ensures var z := PhaseOf(h, name); Mul(z, z) != z && (Mul(z, z) == ONE ==> name == Z)
  {
    hide Mul, IsRootHalf;
    var z := PhaseOf(h, name);
    if name in {T, Tdg} { EighthTurn(h, z); } else { QuarterTurn(z); }
  }

  lemma QuarterTurn(z: Complex)
    requires (z.re == -1.0 && z.im == 0.0) || (z.re == 0.0 && (z.im == 1.0 || z.im == -1.0))
    ensures Mul(z, z).im == 0.0 && Mul(z, z).re == if z.re == 0.0 then -1.0 else 1.0
  {
  }

  lemma EighthTurn(h: real, z: Complex)
    requires IsRootHalf(h) && z.re == h && (z.im == h || z.im == -h)
    ensures Mul(z, z).re == 0.0 && z.re != 0.0
  {
    if z.im == -h { assert z.im * z.im == h * h; }
  }

  function FlipOf(name: GateName): Matrix2 {
    if name == X then FLIP
    else Matrix2(Complex(0.5, 0.5), Complex(0.5, -0.5), Complex(0.5, -0.5), Complex(0.5, 0.5))
  }

  lemma FixedFlipMatrix(trig: Trig, name: GateName)
    requires name in {X, Sx}
    ensures SingleQubitMatrix(trig, name, []) == Some(FlipOf(name))
  {
  }

  lemma FlipCorner(name: GateName)
    requires name in {X, Sx}
    ensures var m := FlipOf(name);
      && IsXForm(m)
      && Add(Mul(m.m00, m.m00), Mul(m.m01, m.m01)) == (if name == X then ONE else ZERO)
      && (if name == X then m.m00 == ZERO else m.m00 != ZERO)
  {
    var m := FlipOf(name);
    hide Mul, Add;
    if name == X {
      MulZero(ZERO);
      MulOne(ONE);
      AddZero(ONE);
    } else {
      SquareDiagonal(0.5);
      SquareAntidiagonal(0.5);
      AddParts(Mul(m.m00, m.m00), Mul(m.m01, m.m01));
    }
  }

  lemma SquareDiagonal(r: real)
    ensures Mul(Complex(r, r), Complex(r, r)) == Complex(0.0, 2.0 * (r * r))
  {
  }

  lemma SquareAntidiagonal(r: real)
    ensures Mul(Complex(r, -r), Complex(r, -r)) == Complex(0.0, -2.0 * (r * r))
  {
    assert -r * -r == r * r && r * -r == -(r * r) && -r * r == -(r * r);
  }

  lemma AddParts(z: Complex, w: Complex)
    ensures Add(z, w).re == z.re + w.re && Add(z, w).im == z.im + w.im
  {
  }

  lemma FixedOperator(trig: Trig, gate: Gate)
    requires |gate.qubits| == 1 && IsFixedName(gate.name) && HasAngle(gate)
    ensures SingleQubitMatrix(trig, gate.name, []).Some?
    ensures OperatorOf(trig, gate) == Some(Matrix(SingleQubitMatrix(trig, gate.name, []).value, {}, gate.qubits[0]))
  {
    assert Angles(gate.parameters).Some? by { assert gate.parameters[..0] == []; }
    hide Angles;
  }

  /** Two equal fixed gates are neither that gate nor, but for Z and X, nothing. */
  lemma FixedPairDiffers(trig: Trig, name: GateName, x: nat, zero: bool)
    requires TrigLaws(trig) && IsFixedName(name) && SingleQubitMatrix(trig, name, []).Some?
    requires var p: Operator := Matrix(SingleQubitMatrix(trig, name, []).value, {}, x);
      ParallelThrough([p, p], if zero then [] else [p])
    ensures zero && name in {Z, X}
  {
    hide After, Through, Parallel, Mul, Add, SingleQubitMatrix, FlipOf, PhaseOf;
    if name in {X, Sx} {
      var m := FlipOf(name);
      FixedFlipMatrix(trig, name);
      FlipCorner(name);
      hide TrigLaws, IsXForm;
      var p: Operator := Matrix(m, {}, x);
      ThroughSmall(p, p, p, ZeroState());
      assert Parallel(Through([p, p], ZeroState()), Through(if zero then [] else [p], ZeroState()));
      XFormTwice(m, x);
    } else {
      var m := Diagonal(PhaseOf(trig.half, name));
      RootHalf(trig);
      FixedPhaseMatrix(trig, name);
      PhaseSquare(trig.half, name);
      hide TrigLaws, IsRootHalf;
      var p: Operator := Matrix(m, {}, x);
      ThroughSmall(p, p, p, Uniform());
      assert Parallel(Through([p, p], Uniform()), Through(if zero then [] else [p], Uniform()));
      DiagonalTwice(m, x);
    }
  }

  lemma NoOperators(trig: Trig)
    ensures Operators(trig, []) == Some([])
  {
  }
}
