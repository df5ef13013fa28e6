/**
 * Both rewrites keep the linear map, for every simple diagram and every boundary pattern, and so does every run
 * of them (src/engine/zx-graph.ts:289-440 against the map of lines 100-165).
 */
module ZxSoundness {
  import opened ComplexNumbers
  import opened Summation
  import opened ZxDiagram
  import opened ZxRewrite

  // ---------------------------------------------------------------- exponent arithmetic

  lemma EvenPower(m: int)
    ensures IPow(2 * m) == Complex(Sign(m), 0.0)
  {
    assert (2 * m) % 4 == if m % 2 == 0 then 0 else 2;
  }

  lemma AddPowers(p: Complex, q: Complex, z: Complex)
    ensures Add(Mul(p, z), Mul(q, z)) == Mul(Add(p, q), z)
  {
  }

  lemma ComplementExponentEven(n: int, pairs: int, s: int)
    requires n * n == n + 2 * pairs && (s == 1 || s == -1) && n % 2 == 0
    ensures (2 * pairs + s * n) % 4 == 0 && (2 * n - s) % 4 == if s == 1 then 3 else 1
  {
    var h := n / 2;
    assert n == 2 * h && n * n == 4 * (h * h);
    if s == 1 {
      assert 2 * pairs + s * n == 4 * (h * h);
    } else {
      assert 2 * pairs + s * n == 4 * (h * h - h);
    }
  }

  lemma ComplementExponentOdd(n: int, pairs: int, s: int)
    requires n * n == n + 2 * pairs && (s == 1 || s == -1) && n % 2 == 1
    ensures (2 * pairs + s * n) % 4 == (if s == 1 then 1 else 3) && (2 * n - s) % 4 == if s == 1 then 1 else 3
  {
    var h := n / 2;
    assert n == 2 * h + 1 && n * n == 4 * (h * h) + 4 * h + 1;
    if s == 1 {
      assert 2 * pairs + s * n == 4 * (h * h + h) + 1;
    } else {
      assert 2 * pairs + s * n == 4 * (h * h) - 1;
    }
  }

  /** 1 + i^(2n - s) = (1 - s i) i^(s n^2), with n^2 = n + 2 * pairs; s is the direction of the neighbours' shift. */
  lemma ComplementScalar(n: int, pairs: int, s: int)
    requires n * n == n + 2 * pairs && (s == 1 || s == -1)
    ensures Add(ONE, IPow(2 * n - s)) == Mul(Complex(1.0, -(s as real)), IPow(2 * pairs + s * n))
  {
    if n % 2 == 0 {
      ComplementExponentEven(n, pairs, s);
    } else {
      ComplementExponentOdd(n, pairs, s);
    }
    ScalarTable(2 * n - s, 2 * pairs + s * n, s);
  }

  lemma ScalarTable(j: int, m: int, s: int)
    requires s == 1 || s == -1
    requires (j % 4 == (if s == 1 then 3 else 1) && m % 4 == 0)
          || (j % 4 == (if s == 1 then 1 else 3) && m % 4 == if s == 1 then 1 else 3)
    ensures Add(ONE, IPow(j)) == Mul(Complex(1.0, -(s as real)), IPow(m))
  {
    hide Mul, Add, IPow;
    PowerTable(j);
    PowerTable(m);
    OnePlus(IPow(j));
    SignedProduct(-(s as real), IPow(m));
  }

  lemma PowerTable(k: int)
    ensures IPow(k) == if k % 4 == 0 then ONE else if k % 4 == 1 then I
                       else if k % 4 == 2 then Complex(-1.0, 0.0) else Complex(0.0, -1.0)
  {
  }

  lemma OnePlus(z: Complex)
    ensures Add(ONE, z) == Complex(1.0 + z.re, z.im)
  {
  }

  lemma SignedProduct(t: real, z: Complex)
    requires t == 1.0 || t == -1.0
    ensures Mul(Complex(1.0, t), z)
         == if t == 1.0 then Complex(z.re - z.im, z.im + z.re) else Complex(z.re + z.im, z.im - z.re)
  {
    SignTimes(t, z.re);
    SignTimes(t, z.im);
  }

  lemma SignTimes(t: real, x: real)
    requires t == 1.0 || t == -1.0
    ensures t * x == if t == 1.0 then x else -x
  {
  }

  // ---------------------------------------------------------------- one term of the sum

  /** The value of a term whose spider set differs from `ones` by a known angle and edge count. */
  lemma TermTurned(chi: real -> Complex, d: Diagram, ones: set<int>, z: Complex, e: int, a: real, k: int)
    requires QuarterTurns(chi)
    requires z == chi(a) && Angle(d.spiders, ones) == a + 0.5 * (k as real) && ActiveEdges(d.edges, ones) == e
    ensures Term(chi, d, ones) == Mul(IPow(2 * e + k), z)
  {
    hide Mul, IPow;
    Turn(chi, a, k);
    IPowAdd(2 * e, k, z);
  }

  lemma EdgesOfSimple(d: Diagram)
    requires Simple(d)
    ensures Tidy(d.edges, ToSet(Ids(d.spiders)))
    ensures forall i :: 0 <= i < |d.edges| ==> d.edges[i].0 != d.edges[i].1
  {
  }

  /** The neighbourhood of a spider of a simple diagram: other spiders, each once. */
  lemma NeighbourhoodOf(d: Diagram, u: int)
    requires Simple(d)
    ensures var ns := Neighbours(d.edges, u); Distinct(ns) && ToSet(ns) <= ToSet(Ids(d.spiders)) && u !in ns
  {
    NeighboursExact(d.edges, u);
    var ns := Neighbours(d.edges, u);
    forall x | x in ns ensures x in ToSet(Ids(d.spiders)) && x != u {
      var i :| 0 <= i < |d.edges| && SameKey(d.edges[i], u, x);
      assert d.edges[i].0 in ToSet(Ids(d.spiders)) && d.edges[i].1 in ToSet(Ids(d.spiders));
    }
  }

  lemma PinnedInterior(d: Diagram, u: int, ins: seq<bool>, outs: seq<bool>, ones: set<int>)
    requires |ins| == |d.inputs| && |outs| == |d.outputs| && IsInterior(d, u)
    ensures Consistent(d, ins, outs, ones + {u}) == Consistent(d, ins, outs, ones)
  {
    forall i | 0 <= i < |ins| ensures (d.inputs[i] in ones + {u}) == (d.inputs[i] in ones) {
      assert d.inputs[i] in d.inputs;
    }
    forall i | 0 <= i < |outs| ensures (d.outputs[i] in ones + {u}) == (d.outputs[i] in ones) {
      assert d.outputs[i] in d.outputs;
    }
  }

  // ---------------------------------------------------------------- removing one spider

  /** Dropping the edges at u does not matter while u is 0. */
  lemma RemoveVertexInactive(edges: seq<Edge>, u: int, ones: set<int>)
    requires u !in ones
    ensures ActiveEdges(RemoveVertex(edges, u), ones) == ActiveEdges(edges, ones)
  {
    FilterInactive(edges, (e: Edge) => e.0 != u && e.1 != u, ones);
  }

  lemma RemoveSpiderById(spiders: seq<Spider>, id: int)
    requires Distinct(Ids(spiders)) && id in Ids(spiders)
    ensures Ids(RemoveSpider(spiders, id)) == Without(Ids(spiders), IndexOf(Ids(spiders), id))
    ensures Distinct(Ids(RemoveSpider(spiders, id)))
    ensures forall ones :: id !in ones ==> Angle(RemoveSpider(spiders, id), ones) == Angle(spiders, ones)
  {
    var i := IndexOf(Ids(spiders), id);
    assert spiders[i].id == Ids(spiders)[i] == id;
    RemoveSpiderIds(spiders, i);
    DistinctWithout(Ids(spiders), i);
    forall ones: set<int> | id !in ones ensures Angle(RemoveSpider(spiders, id), ones) == Angle(spiders, ones) {
      RemoveSpiderAngle(spiders, id, ones);
    }
  }

  // ---------------------------------------------------------------- local complementation

  /** 1+i when the removed phase is pi/2, 1-i when it is -pi/2. */
  function ComplementFactor(d: Diagram, id: int): Complex
    requires HasSpider(d, id)
  {
    if PhaseOf(d, id) == 0.5 then Complex(1.0, 1.0) else Complex(1.0, -1.0)
  }

  function QuarterSign(d: Diagram, id: int): int
    requires HasSpider(d, id)
  {
    if PhaseOf(d, id) == 0.5 then -1 else 1
  }

  lemma ComplementAngle(d: Diagram, id: int, ones: set<int>) returns (t: int)
    requires Simple(d) && HasSpider(d, id) && id !in ones
    ensures Angle(Complemented(d, id).spiders, ones) == Angle(d.spiders, ones)
         + 0.5 * ((QuarterSign(d, id) * Count(Neighbours(d.edges, id), ones) + 4 * t) as real)
  {
    hide Angle, Neighbours, ShiftPhases, RemoveSpider, ComplementAmong, RemoveVertex, IndexOf, Count, Shifts, Ids;
    var ns := Neighbours(d.edges, id);
    var shift := ComplementShift(d, id);
    NeighbourhoodOf(d, id);
    t := AngleShift(d.spiders, ns, shift, ones);
    ShiftsIsProduct(ns, ones, shift);
    RemoveSpiderById(ShiftPhases(d.spiders, ns, shift), id);
  }

  lemma ComplementEdges(d: Diagram, id: int, ones: set<int>)
    requires Simple(d) && HasSpider(d, id) && id !in ones
    ensures Even(ActiveEdges(Complemented(d, id).edges, ones) - ActiveEdges(d.edges, ones)
                 - Pairs(Neighbours(d.edges, id), ones))
  {
    hide Even, ActiveEdges, Neighbours, ComplementAmong, RemoveVertex, Pairs, RemoveSpider, ShiftPhases, PhaseOf,
         ComplementShift;
    var ns := Neighbours(d.edges, id);
    NeighbourhoodOf(d, id);
    ComplementEffect(d.edges, ns, ToSet(Ids(d.spiders)), ones);
    RemoveVertexInactive(ComplementAmong(d.edges, ns), id, ones);
  }

  /** The term with the spider set to 1. */
  lemma ComplementedSpiderOn(chi: real -> Complex, d: Diagram, id: int, ones: set<int>)
    requires QuarterTurns(chi) && Simple(d) && ComplementApplies(d, id) && id !in ones
    ensures Term(chi, d, ones + {id})
         == Mul(IPow(2 * ActiveEdges(d.edges, ones) + (2 * Count(Neighbours(d.edges, id), ones) - QuarterSign(d, id))),
                chi(Angle(d.spiders, ones)))
  {
    hide Angle, ActiveEdges, Neighbours, Count, Mul, IPow, Term;
    var i := IndexOf(Ids(d.spiders), id);
    var e, n, s := ActiveEdges(d.edges, ones), Count(Neighbours(d.edges, id), ones), QuarterSign(d, id);
    var phase, a := d.spiders[i].phase, Angle(d.spiders, ones);
    assert Ids(d.spiders)[i] == d.spiders[i].id == id;
    AngleWith(d.spiders, i, ones);
    Activate(d.edges, id, ones);
    var turns := (phase / 2.0).Floor;
    var h := 4 * turns + if s == -1 then 1 else 3;
    assert phase == 0.5 * (h as real);
    TermTurned(chi, d, ones + {id}, chi(a), e + n, a, h);
    var w := turns + if s == -1 then 0 else 1;
    assert h == 4 * w - s;
    IPowCongruent(2 * (e + n) + h, 2 * e + (2 * n - s)) by { assert 2 * (e + n) + h - (2 * e + (2 * n - s)) == 4 * w; }
  }

  /** The term of the rewritten diagram. */
  lemma ComplementedTerm(chi: real -> Complex, d: Diagram, id: int, ones: set<int>)
    requires QuarterTurns(chi) && Simple(d) && ComplementApplies(d, id) && id !in ones
    ensures var ns := Neighbours(d.edges, id);
      Term(chi, Complemented(d, id), ones)
        == Mul(IPow(2 * ActiveEdges(d.edges, ones) + (2 * Pairs(ns, ones) + QuarterSign(d, id) * Count(ns, ones))),
               chi(Angle(d.spiders, ones)))
  {
    hide Angle, ActiveEdges, Neighbours, Count, Pairs, Mul, IPow, Term, Complemented, PhaseOf;
    var d', ns, s := Complemented(d, id), Neighbours(d.edges, id), QuarterSign(d, id);
    var e, e', n, p := ActiveEdges(d.edges, ones), ActiveEdges(d'.edges, ones), Count(ns, ones), Pairs(ns, ones);
    var a := Angle(d.spiders, ones);
    var t := ComplementAngle(d, id, ones);
    ComplementEdges(d, id, ones);
    TermTurned(chi, d', ones, chi(a), e', a, s * n + 4 * t);
    var h := (e' - e - p) / 2;
    assert e' - e - p == 2 * h;
    SameTurns(e, e', p, s * n, t, h);
  }

  lemma SameTurns(e: int, e': int, p: int, k: int, t: int, h: int)
    requires e' - e - p == 2 * h
    ensures IPow(2 * e' + (k + 4 * t)) == IPow(2 * e + (2 * p + k))
  {
    hide IPow;
    assert 2 * e' + (k + 4 * t) - (2 * e + (2 * p + k)) == 4 * (h + t);
    IPowCongruent(2 * e' + (k + 4 * t), 2 * e + (2 * p + k));
  }

  /** Multiplying a scalar identity between powers of i by i^e and by z. */
  lemma FactorPowers(e: int, k: int, c: Complex, m: int, z: Complex)
    requires Add(ONE, IPow(k)) == Mul(c, IPow(m))
    ensures Add(Mul(IPow(e), z), Mul(IPow(e + k), z)) == Mul(c, Mul(IPow(e + m), z))
  {
    hide Mul, IPow, Add;
    var w := Mul(IPow(e), z);
    IPowAdd(k, e, z);
    IPowAdd(m, e, z);
    assert e + k == k + e && e + m == m + e;
    MulOne(w);
    AddPowers(ONE, IPow(k), w);
    MulAssoc(c, IPow(m), w);
  }

  /** Summing the two values of the removed spider: the rule at one assignment of the others. */
  lemma ComplementTerm(chi: real -> Complex, d: Diagram, id: int, ones: set<int>)
    requires QuarterTurns(chi) && Simple(d) && ComplementApplies(d, id) && id !in ones
    ensures Add(Term(chi, d, ones), Term(chi, d, ones + {id}))
         == Mul(ComplementFactor(d, id), Term(chi, Complemented(d, id), ones))
  {
    hide Angle, ActiveEdges, Neighbours, Count, Pairs, Mul, IPow, Complemented, Add, PhaseOf;
    var ns, s := Neighbours(d.edges, id), QuarterSign(d, id);
    var e, n, p := ActiveEdges(d.edges, ones), Count(ns, ones), Pairs(ns, ones);
    ComplementedSpiderOn(chi, d, id, ones);
    ComplementedTerm(chi, d, id, ones);
    CountSquare(ns, ones);
    ComplementScalar(n, p, s);
    FactorPowers(2 * e, 2 * n - s, ComplementFactor(d, id), 2 * p + s * n, chi(Angle(d.spiders, ones)));
  }

  /** Local complementation multiplies every amplitude by (1+i) or (1-i), and nothing else. */
  lemma ComplementAmplitude(chi: real -> Complex, d: Diagram, id: int, ins: seq<bool>, outs: seq<bool>)
    requires QuarterTurns(chi) && Simple(d) && ComplementApplies(d, id)
    requires |ins| == |d.inputs| && |outs| == |d.outputs|
    ensures Amplitude(chi, d, ins, outs)
         == Mul(ComplementFactor(d, id), Amplitude(chi, Complemented(d, id), ins, outs))
  {
    hide Term, Mul, Add, ShiftPhases, RemoveSpider, Neighbours, ComplementAmong, RemoveVertex, PhaseOf, ComplementShift;
    var i := IndexOf(Ids(d.spiders), id);
    var d', c := Complemented(d, id), ComplementFactor(d, id);
    var f := (ones: set<int>) => PinnedTerm(chi, d, ins, outs, ones);
    var g := (ones: set<int>) => PinnedTerm(chi, d', ins, outs, ones);
    RemoveSpiderById(ShiftPhases(d.spiders, Neighbours(d.edges, id), ComplementShift(d, id)), id);
    forall o | Between({}, Without(Ids(d.spiders), i), o) ensures Add(f(o), f(o + {id})) == Mul(c, g(o)) {
      WithoutMember(Ids(d.spiders), i);
      assert id !in o;
      ComplementTerm(chi, d, id, o);
      PinnedInterior(d, id, ins, outs, o);
      AddZeros(c);
    }
    SumOut(Ids(d.spiders), i, {}, f, c, g);
  }

  lemma WithoutMember(ids: seq<int>, i: nat)
    requires Distinct(ids) && i < |ids|
    ensures ids[i] !in ToSet(Without(ids, i))
  {
  }

  lemma AddZeros(c: Complex)
    ensures Add(ZERO, ZERO) == Mul(c, ZERO)
  {
  }
}
