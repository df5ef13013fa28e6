/** Pivoting keeps the linear map (src/engine/zx-graph.ts:344-440 against the map of lines 100-165). */
module ZxPivotSoundness {
  import opened ComplexNumbers
  import opened Summation
  import opened ZxDiagram
  import opened ZxRewrite
  import opened ZxSoundness

  // ---------------------------------------------------------------- sign arithmetic

  lemma EvenProduct(x: int, y: int)
    requires Even(x)
    ensures Even(x * y) && Even(y * x)
  {
    var h := x / 2;
    assert x == 2 * h;
    assert x * y == 2 * (h * y);
  }

  lemma OddProduct(x: int, y: int)
    requires !Even(x) && !Even(y)
    ensures !Even(x * y)
  {
    var k := y / 2;
    assert y == 2 * k + 1;
    assert x * y == 2 * (x * k) + x;
  }

  lemma SignOfProduct(x: int, y: int)
    ensures Sign(x * y) == if Even(x) || Even(y) then 1.0 else -1.0
  {
    if Even(x) {
      EvenProduct(x, y);
    } else if Even(y) {
      EvenProduct(y, x);
    } else {
      OddProduct(x, y);
    }
  }

  /** 1 + (-1)^x + (-1)^y - (-1)^(x+y) = 2 (-1)^(xy). */
  lemma FourSigns(x: int, y: int)
    ensures 1.0 + Sign(x) + Sign(y) + Sign(x + y + 1) == 2.0 * Sign(x * y)
  {
    SignOfProduct(x, y);
  }

  lemma SignSum(x: int, y: int)
    ensures Sign(x + y) == Sign(x) * Sign(y)
  {
  }

  lemma SignCongruent(x: int, y: int)
    requires Even(x - y)
    ensures Sign(x) == Sign(y)
  {
  }

  /** Expanding (U+S+a)(V+S+b) modulo 2 over the three neighbourhood groups. */
  lemma PivotParity(u: int, v: int, s: int, a: int, b: int)
    ensures Even(u * v + u * s + v * s + (b * u + a * v + (a + b + 1) * s) + a * b - (u + s + a) * (v + s + b))
  {
    assert (u + s + a) * (v + s + b)
      == u * v + u * s + b * u + v * s + s * s + b * s + a * v + a * s + a * b;
    assert (a + b + 1) * s == a * s + b * s + s;
    SquareParity(s);
  }

  lemma DifferenceParity(x: int, y: int)
    requires Even(x) == Even(y)
    ensures Even(x - y)
  {
  }

  lemma SquareParity(s: int)
    ensures Even(s - s * s)
  {
    if Even(s) { EvenProduct(s, s); } else { OddProduct(s, s); }
    DifferenceParity(s, s * s);
  }

  /** T + (-1)^x T + (-1)^y T + (-1)^(x+y+1) T = 2 (-1)^(ab) (-1)^m T when ab + m and xy have the same parity. */
  lemma FourTerms(t: Complex, x: int, y: int, ab: int, m: int)
    requires Even(ab + m - x * y)
    ensures Add(Add(t, Scale(Sign(x), t)), Add(Scale(Sign(y), t), Scale(Sign(x + y + 1), t)))
         == Mul(Complex(2.0 * Sign(ab), 0.0), Scale(Sign(m), t))
  {
    hide Sign, Even;
    FourSigns(x, y);
    SignCongruent(ab + m, x * y);
    SignSum(ab, m);
    Combine(Sign(x), Sign(y), Sign(x + y + 1), Sign(ab), Sign(m), t);
  }

  lemma Combine(p: real, q: real, r: real, a: real, m: real, t: Complex)
    requires 1.0 + p + q + r == 2.0 * (a * m)
    ensures Add(Add(t, Scale(p, t)), Add(Scale(q, t), Scale(r, t))) == Mul(Complex(2.0 * a, 0.0), Scale(m, t))
  {
    CombineReal(p, q, r, a, m, t.re);
    CombineReal(p, q, r, a, m, t.im);
    RealFactor(2.0 * a, Scale(m, t));
  }

  lemma RealFactor(x: real, z: Complex)
    ensures Mul(Complex(x, 0.0), z) == Scale(x, z)
  {
  }

  lemma CombineReal(p: real, q: real, r: real, a: real, m: real, t: real)
    requires 1.0 + p + q + r == 2.0 * (a * m)
    ensures (t + p * t) + (q * t + r * t) == (2.0 * a) * (m * t)
  {
    LinearFour(p, q, r, t);
    var w := 2.0 * (a * m);
    assert (1.0 + p + q + r) * t == w * t;
    LinearTwo(a, m, t);
  }

  lemma LinearFour(p: real, q: real, r: real, t: real)
    ensures (t + p * t) + (q * t + r * t) == (1.0 + p + q + r) * t
  {
  }

  lemma LinearTwo(a: real, m: real, t: real)
    ensures (2.0 * a) * (m * t) == (2.0 * (a * m)) * t
  {
    assert a * (m * t) == (a * m) * t;
  }

  lemma EvenPowerScales(k: int, z: Complex)
    ensures Mul(IPow(2 * k), z) == Scale(Sign(k), z)
  {
    EvenPower(k);
  }

  // ---------------------------------------------------------------- counting over the groups

  lemma {:induction false} DropUnset(ids: seq<int>, v: int, ones: set<int>)
    requires v !in ones
    ensures Count(Drop(ids, {v}), ones) == Count(ids, ones)
  {
    if |ids| > 0 {
      DropUnset(ids[1..], v, ones);
      var head, tail := if ids[0] in {v} then [] else [ids[0]], Drop(ids[1..], {v});
      assert (head + tail)[|head|..] == tail;
    }
  }

  lemma CountSetOne(ids: seq<int>, v: int, ones: set<int>)
    requires Distinct(ids) && v in ids && v !in ones
    ensures Count(ids, ones + {v}) == Count(ids, ones) + 1
  {
    CountIsCardinality(ids, ones);
    CountIsCardinality(ids, ones + {v});
    assert ToSet(ids) * (ones + {v}) == ToSet(ids) * ones + {v};
  }

  /** The neighbours of u other than v are those of u only and the shared ones; likewise for v. */
  lemma GroupCounts(d: Diagram, u: int, v: int, ones: set<int>)
    requires Simple(d) && u !in ones && v !in ones
    ensures var g := GroupsOf(d.edges, u, v);
      && Count(Neighbours(d.edges, u), ones) == Count(g.onlyU, ones) + Count(g.shared, ones)
      && Count(Neighbours(d.edges, v), ones) == Count(g.onlyV, ones) + Count(g.shared, ones)
  {
    hide Count, Neighbours;
    NeighboursExact(d.edges, u);
    NeighboursExact(d.edges, v);
    DropUnset(Neighbours(d.edges, u), v, ones);
    DropUnset(Neighbours(d.edges, v), u, ones);
    KeepDropSplit(Neighbours(d.edges, u), {v}, ones);
    KeepDropSplit(Neighbours(d.edges, v), {u}, ones);
    var us, vs := Drop(Neighbours(d.edges, u), {v}), Drop(Neighbours(d.edges, v), {u});
    KeepDropSplit(us, ToSet(vs), ones);
    KeepDropSplit(vs, ToSet(us), ones);
    CountBySet(Keep(us, ToSet(vs)), Keep(vs, ToSet(us)), ones);
  }

  /** The three groups: disjoint sets of other spiders. */
  lemma GroupsWithin(d: Diagram, u: int, v: int)
    requires Simple(d)
    ensures var g, ids := GroupsOf(d.edges, u, v), ToSet(Ids(d.spiders));
      && ToSet(g.onlyU) <= ids && ToSet(g.onlyV) <= ids && ToSet(g.shared) <= ids
      && ToSet(g.onlyU) !! ToSet(g.onlyV) && ToSet(g.onlyU) !! ToSet(g.shared) && ToSet(g.onlyV) !! ToSet(g.shared)
      && u !in g.onlyU && u !in g.onlyV && u !in g.shared && v !in g.onlyU && v !in g.onlyV && v !in g.shared
  {
    hide Neighbours;
    NeighbourhoodOf(d, u);
    NeighbourhoodOf(d, v);
    var g, ids := GroupsOf(d.edges, u, v), ToSet(Ids(d.spiders));
    var nu, nv := Neighbours(d.edges, u), Neighbours(d.edges, v);
    assert forall x :: x in nu ==> x in ToSet(nu);
    assert forall x :: x in nv ==> x in ToSet(nv);
    var us, vs := Drop(nu, {v}), Drop(nv, {u});
    assert forall x :: x in us <==> x in ToSet(us);
    assert forall x :: x in vs <==> x in ToSet(vs);
  }

  // ---------------------------------------------------------------- terms

  function PiBit(d: Diagram, id: int): int
    requires HasSpider(d, id)
  {
    if PhaseOf(d, id) == 1.0 then 1 else 0
  }

  /** Setting a spider of phase 0 or pi multiplies a term by a sign. */
  lemma SpiderOn(chi: real -> Complex, d: Diagram, u: int, ones: set<int>)
    requires QuarterTurns(chi) && Simple(d) && HasSpider(d, u) && u !in ones
    requires PhaseOf(d, u) == 0.0 || PhaseOf(d, u) == 1.0
    ensures Term(chi, d, ones + {u})
         == Scale(Sign(Count(Neighbours(d.edges, u), ones) + PiBit(d, u)), Term(chi, d, ones))
  {
    hide Angle, ActiveEdges, Neighbours, Count, Mul, IPow, Scale, Sign;
    var i := IndexOf(Ids(d.spiders), u);
    var e, n, a := ActiveEdges(d.edges, ones), Count(Neighbours(d.edges, u), ones), PiBit(d, u);
    var phase, angle := d.spiders[i].phase, Angle(d.spiders, ones);
    assert Ids(d.spiders)[i] == d.spiders[i].id == u;
    AngleWith(d.spiders, i, ones);
    Activate(d.edges, u, ones);
    var w := (phase / 2.0).Floor;
    var k := 2 * a + 4 * w;
    assert phase == 0.5 * (k as real);
    TermTurned(chi, d, ones + {u}, chi(angle), e + n, angle, k);
    IPowCongruent(2 * (e + n) + k, 2 * (n + a) + 2 * e) by { assert 2 * (e + n) + k - (2 * (n + a) + 2 * e) == 4 * w; }
    IPowAdd(2 * (n + a), 2 * e, chi(angle));
    EvenPowerScales(n + a, Term(chi, d, ones));
  }

  /** How the angle changes: b per onlyU, a per onlyV, a+b+1 per shared spider that is set. */
  lemma PivotedAngle(d: Diagram, u: int, v: int, ones: set<int>) returns (t: int)
    requires Simple(d) && PivotApplies(d, u, v) && u !in ones && v !in ones && u != v
    ensures var g, a, b := GroupsOf(d.edges, u, v), PiBit(d, u), PiBit(d, v);
      Angle(Pivoted(d, u, v).spiders, ones) == Angle(d.spiders, ones)
        + ((b * Count(g.onlyU, ones) + a * Count(g.onlyV, ones) + (a + b + 1) * Count(g.shared, ones) + 2 * t) as real)
  {
    hide Angle, ShiftUnlessZero, RemoveSpider, IndexOf, Count, Shifts, Ids, ToggleGroups, RemoveVertex, GroupsOf;
    var g, a, b := GroupsOf(d.edges, u, v), PiBit(d, u), PiBit(d, v);
    assert a as real == PhaseOf(d, u) && b as real == PhaseOf(d, v);
    GroupsWithin(d, u, v);
    var s1 := ShiftUnlessZero(d.spiders, g.onlyU, b as real);
    var s2 := ShiftUnlessZero(s1, g.onlyV, a as real);
    var t1 := AngleShiftUnlessZero(d.spiders, g.onlyU, b as real, ones);
    var t2 := AngleShiftUnlessZero(s1, g.onlyV, a as real, ones);
    var t3 := AngleShiftUnlessZero(s2, g.shared, (a + b + 1) as real, ones);
    IntegerShifts(g.onlyU, ones, b);
    IntegerShifts(g.onlyV, ones, a);
    IntegerShifts(g.shared, ones, a + b + 1);
    var shifted := ShiftGroups(d.spiders, g, PhaseOf(d, u), PhaseOf(d, v));
    RemoveSpiderById(shifted, u);
    RemoveBoth(shifted, u, v, ones);
    t := t1 + t2 + t3;
  }

  lemma IntegerShifts(ids: seq<int>, ones: set<int>, k: int)
    ensures Shifts(ids, ones, k as real) == (k * Count(ids, ones)) as real
  {
    ShiftsIsProduct(ids, ones, k as real);
    CastProduct(k, Count(ids, ones));
  }

  lemma CastProduct(j: int, k: int)
    ensures (j as real) * (k as real) == (j * k) as real
  {
  }

  lemma RemoveBoth(spiders: seq<Spider>, u: int, v: int, ones: set<int>)
    requires Distinct(Ids(spiders)) && u in Ids(spiders) && v in Ids(spiders) && u != v
    requires u !in ones && v !in ones
    ensures Angle(RemoveSpider(RemoveSpider(spiders, u), v), ones) == Angle(spiders, ones)
    ensures var i := IndexOf(Ids(spiders), u);
      && Ids(RemoveSpider(spiders, u)) == Without(Ids(spiders), i)
      && var j := IndexOf(Without(Ids(spiders), i), v);
         && j < |Without(Ids(spiders), i)| && Without(Ids(spiders), i)[j] == v && Distinct(Without(Ids(spiders), i))
         && Ids(RemoveSpider(RemoveSpider(spiders, u), v)) == Without(Without(Ids(spiders), i), j)
  {
    hide Angle, RemoveSpider;
    RemoveSpiderById(spiders, u);
    WithoutOther(Ids(spiders), IndexOf(Ids(spiders), u), v);
    RemoveSpiderById(RemoveSpider(spiders, u), v);
  }

  lemma WithoutOther(ids: seq<int>, i: nat, v: int)
    requires i < |ids| && v in ids && ids[i] != v
    ensures v in Without(ids, i)
  {
    var k :| 0 <= k < |ids| && ids[k] == v;
    assert Without(ids, i)[if k < i then k else k - 1] == v;
  }

  lemma PivotedEdges(d: Diagram, u: int, v: int, ones: set<int>)
    requires Simple(d) && HasSpider(d, u) && HasSpider(d, v) && u !in ones && v !in ones
    ensures var g := GroupsOf(d.edges, u, v);
      var x, y, z := Count(g.onlyU, ones), Count(g.onlyV, ones), Count(g.shared, ones);
      Even(ActiveEdges(Pivoted(d, u, v).edges, ones) - ActiveEdges(d.edges, ones) - (x * y + x * z + y * z))
  {
    hide Even, ActiveEdges, GroupsOf, RemoveVertex, RemoveSpider, ToggleBetween, ShiftGroups, PhaseOf, Count;
    var g, ids := GroupsOf(d.edges, u, v), ToSet(Ids(d.spiders));
    var x, y, z := Count(g.onlyU, ones), Count(g.onlyV, ones), Count(g.shared, ones);
    GroupsWithin(d, u, v);
    var e0 := d.edges;
    var e1 := ToggleBetween(e0, g.onlyU, g.onlyV);
    var e2 := ToggleBetween(e1, g.onlyU, g.shared);
    var e3 := ToggleBetween(e2, g.onlyV, g.shared);
    BetweenEffect(e0, g.onlyU, g.onlyV, ids, ones);
    BetweenEffect(e1, g.onlyU, g.shared, ids, ones);
    BetweenEffect(e2, g.onlyV, g.shared, ids, ones);
    EvenSum(ActiveEdges(e1, ones) - ActiveEdges(e0, ones) - x * y,
            ActiveEdges(e2, ones) - ActiveEdges(e1, ones) - x * z);
    EvenSum(ActiveEdges(e2, ones) - ActiveEdges(e0, ones) - x * y - x * z,
            ActiveEdges(e3, ones) - ActiveEdges(e2, ones) - y * z);
    RemoveVertexInactive(e3, u, ones);
    RemoveVertexInactive(RemoveVertex(e3, u), v, ones);
  }

  /** The rewritten term is a sign times the original one. */
  lemma PivotedTerm(chi: real -> Complex, d: Diagram, u: int, v: int, ones: set<int>) returns (m: int)
    requires QuarterTurns(chi) && Simple(d) && PivotApplies(d, u, v) && u !in ones && v !in ones && u != v
    ensures Term(chi, Pivoted(d, u, v), ones) == Scale(Sign(m), Term(chi, d, ones))
    ensures var g, a, b := GroupsOf(d.edges, u, v), PiBit(d, u), PiBit(d, v);
      var x, y, z := Count(g.onlyU, ones), Count(g.onlyV, ones), Count(g.shared, ones);
      Even(m - (x * y + x * z + y * z + (b * x + a * y + (a + b + 1) * z)))
  {
    hide Angle, ActiveEdges, GroupsOf, Count, Mul, IPow, Scale, Sign, Pivoted;
    var d' := Pivoted(d, u, v);
    var g, a, b := GroupsOf(d.edges, u, v), PiBit(d, u), PiBit(d, v);
    var x, y, z := Count(g.onlyU, ones), Count(g.onlyV, ones), Count(g.shared, ones);
    var t := PivotedAngle(d, u, v, ones);
    PivotedEdges(d, u, v, ones);
    var e, e' := ActiveEdges(d.edges, ones), ActiveEdges(d'.edges, ones);
    var shift := b * x + a * y + (a + b + 1) * z;
    var angle := Angle(d.spiders, ones);
    var k := 2 * shift + 4 * t;
    assert 0.5 * (k as real) == (shift + 2 * t) as real;
    TermTurned(chi, d', ones, chi(angle), e', angle, k);
    m := e' - e + shift;
    IPowCongruent(2 * e' + k, 2 * m + 2 * e) by { assert 2 * e' + k - (2 * m + 2 * e) == 4 * t; }
    IPowAdd(2 * m, 2 * e, chi(angle));
    EvenPowerScales(m, Term(chi, d, ones));
  }

  /** 2 (-1)^(ab). */
  function PivotFactor(d: Diagram, u: int, v: int): Complex
    requires HasSpider(d, u) && HasSpider(d, v)
  {
    Complex(2.0 * Sign(PiBit(d, u) * PiBit(d, v)), 0.0)
  }

  /** Summing the four values of the two removed spiders: the rule at one assignment of the others. */
  lemma PivotTerm(chi: real -> Complex, d: Diagram, u: int, v: int, ones: set<int>)
    requires QuarterTurns(chi) && Simple(d) && PivotApplies(d, u, v) && u !in ones && v !in ones && u != v
    ensures Add(Add(Term(chi, d, ones), Term(chi, d, ones + {u})),
                Add(Term(chi, d, ones + {v}), Term(chi, d, ones + {v} + {u})))
         == Mul(PivotFactor(d, u, v), Term(chi, Pivoted(d, u, v), ones))
  {
    hide Term, GroupsOf, Count, Mul, Add, Scale, Sign, Pivoted, Neighbours, PhaseOf;
    var g, a, b := GroupsOf(d.edges, u, v), PiBit(d, u), PiBit(d, v);
    var x, y, z := Count(g.onlyU, ones), Count(g.onlyV, ones), Count(g.shared, ones);
    var t := Term(chi, d, ones);
    GroupCounts(d, u, v, ones);
    SpiderOn(chi, d, u, ones);
    SpiderOn(chi, d, v, ones);
    SpiderOn(chi, d, u, ones + {v});
    NeighboursExact(d.edges, u);
    CountSetOne(Neighbours(d.edges, u), v, ones);
    var p, q := x + z + a, y + z + b;
    ScaleScale(p + 1, q, t);
    var m := PivotedTerm(chi, d, u, v, ones);
    PivotParity(x, y, z, a, b);
    EvenSum(m - (x * y + x * z + y * z + (b * x + a * y + (a + b + 1) * z)),
            x * y + x * z + y * z + (b * x + a * y + (a + b + 1) * z) + a * b - p * q);
    FourTerms(t, p, q, a * b, m);
  }

  lemma ScaleScale(j: int, k: int, z: Complex)
    ensures Scale(Sign(j), Scale(Sign(k), z)) == Scale(Sign(j + k), z)
  {
  }

  /** Pivoting multiplies every amplitude by 2 (-1)^(ab), and nothing else. */
  lemma PivotAmplitude(chi: real -> Complex, d: Diagram, u: int, v: int, ins: seq<bool>, outs: seq<bool>)
    requires QuarterTurns(chi) && Simple(d) && PivotApplies(d, u, v)
    requires |ins| == |d.inputs| && |outs| == |d.outputs|
    ensures Amplitude(chi, d, ins, outs) == Mul(PivotFactor(d, u, v), Amplitude(chi, Pivoted(d, u, v), ins, outs))
  {
    hide Term, Mul, Add, ShiftGroups, RemoveSpider, GroupsOf, ToggleGroups, RemoveVertex, PhaseOf, PivotFactor,
         Consistent;
    PivotDistinct(d, u, v);
    var ids := Ids(d.spiders);
    var i := IndexOf(ids, u);
    var d', c := Pivoted(d, u, v), PivotFactor(d, u, v);
    var f := (ones: set<int>) => PinnedTerm(chi, d, ins, outs, ones);
    var g := (ones: set<int>) => PinnedTerm(chi, d', ins, outs, ones);
    var shifted := ShiftGroups(d.spiders, GroupsOf(d.edges, u, v), PhaseOf(d, u), PhaseOf(d, v));
    RemoveBoth(shifted, u, v, {});
    var j := IndexOf(Without(ids, i), v);
    WithoutMember(ids, i);
    WithoutMember(Without(ids, i), j);
    var rest := Without(Without(ids, i), j);
    assert ToSet(rest) <= ToSet(Without(ids, i));
    forall o | Between({}, rest, o)
      ensures Add(Add(f(o), f(o + {u})), Add(f(o + {v}), f(o + {v} + {u}))) == Mul(c, g(o))
    {
      assert u !in o && v !in o;
      PinnedPivotTerm(chi, d, u, v, ins, outs, o);
    }
    SumOutTwo(ids, i, j, f, c, g);
  }

  lemma PinnedPivotTerm(
    chi: real -> Complex, d: Diagram, u: int, v: int, ins: seq<bool>, outs: seq<bool>, o: set<int>)
    requires QuarterTurns(chi) && Simple(d) && PivotApplies(d, u, v) && u !in o && v !in o && u != v
    requires |ins| == |d.inputs| && |outs| == |d.outputs|
    ensures Add(Add(PinnedTerm(chi, d, ins, outs, o), PinnedTerm(chi, d, ins, outs, o + {u})),
                Add(PinnedTerm(chi, d, ins, outs, o + {v}), PinnedTerm(chi, d, ins, outs, o + {v} + {u})))
         == Mul(PivotFactor(d, u, v), PinnedTerm(chi, Pivoted(d, u, v), ins, outs, o))
  {
    hide Term, Mul, Add, PivotFactor, ShiftGroups, RemoveSpider, GroupsOf, ToggleGroups, RemoveVertex, PhaseOf;
    PinnedInterior(d, u, ins, outs, o);
    PinnedInterior(d, v, ins, outs, o);
    PinnedInterior(d, u, ins, outs, o + {v});
    PivotTerm(chi, d, u, v, o);
    AddZeros(PivotFactor(d, u, v));
    AddZeroZero();
  }

  lemma AddZeroZero()
    ensures Add(ZERO, ZERO) == ZERO
  {
  }

  lemma PivotDistinct(d: Diagram, u: int, v: int)
    requires Simple(d) && HasEdge(d.edges, u, v)
    ensures u != v
  {
    var i :| 0 <= i < |d.edges| && SameKey(d.edges[i], u, v);
    assert d.edges[i].0 != d.edges[i].1;
  }
}
