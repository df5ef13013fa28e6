/**
 * When the two rewrites apply, and what a diagram looks like to which none applies (src/engine/zx-graph.ts:289-440).
 */
module ZxApplicability {
  import opened ComplexNumbers
  import opened Summation
  import opened ZxDiagram
  import opened ZxRewrite
  import opened ZxRuns

  predicate IsWhole(x: real) {
    x == x.Floor as real
  }

  /** A spider of the diagram on neither boundary. */
  predicate IsInside(d: Diagram, spider: Spider) {
    spider in d.spiders && spider.id !in d.inputs && spider.id !in d.outputs
  }

  // ---------------------------------------------------------------- phases

  lemma WholeSum(x: real, n: int)
    ensures IsWhole(x + n as real) <==> IsWhole(x)
  {
    assert (x + n as real).Floor == x.Floor + n;
  }

  /** A phase a fraction beyond a whole number is brought to that fraction, or to one more. */
  lemma NormalisedFraction(phase: real, fraction: real)
    requires 0.0 <= fraction < 1.0
    ensures NormalisePhase(phase) == fraction || NormalisePhase(phase) == fraction + 1.0 <==> IsWhole(phase - fraction)
  {
    var turns := (phase / 2.0).Floor;
    var x := NormalisePhase(phase) - fraction;
    WholeSum(x, 2 * turns);
    assert x + (2 * turns) as real == phase - fraction;
    assert -1.0 < x < 2.0;
    WholeBelowTwo(x);
  }

  lemma WholeBelowTwo(x: real)
    requires -1.0 < x < 2.0
    ensures IsWhole(x) <==> x == 0.0 || x == 1.0
  {
  }

  lemma {:induction false} FoundSpider(spiders: seq<Spider>, spider: Spider)
    requires Distinct(Ids(spiders)) && spider in spiders
    ensures var i := IndexOf(Ids(spiders), spider.id); i < |spiders| && spiders[i] == spider
  {
    var k :| 0 <= k < |spiders| && spiders[k] == spider;
    assert Ids(spiders)[k] == spider.id;
    var i := IndexOf(Ids(spiders), spider.id);
    assert i < k || i == k || k < i;
  }

  // ---------------------------------------------------------------- when a rewrite applies

  lemma FractionInside(d: Diagram, id: int, fraction: real)
    requires Simple(d) && 0.0 <= fraction < 1.0
    ensures HasSpider(d, id) && IsInterior(d, id)
            && (PhaseOf(d, id) == fraction || PhaseOf(d, id) == fraction + 1.0)
       <==> exists spider :: IsInside(d, spider) && spider.id == id && IsWhole(spider.phase - fraction)
  {
    hide IsWhole;
    DistinctSpiders(d);
    if HasSpider(d, id) {
      var spider := d.spiders[IndexOf(Ids(d.spiders), id)];
      NormalisedFraction(spider.phase, fraction);
      assert spider in d.spiders && spider.id == id;
    }
    forall spider | IsInside(d, spider) && spider.id == id && IsWhole(spider.phase - fraction)
      ensures HasSpider(d, id) && d.spiders[IndexOf(Ids(d.spiders), id)] == spider
    {
      FoundSpider(d.spiders, spider);
    }
  }

  /**
   * Local complementation applies if and only if a spider with that identifier is on no boundary and its phase, in
   * units of pi, is a half more than a whole number.
   */
  lemma ComplementAppliesExactlyWhen(d: Diagram, id: int)
    requires Simple(d)
    ensures LocalComplementation(d, id).applied
       <==> exists spider :: IsInside(d, spider) && spider.id == id && IsWhole(spider.phase - 0.5)
    ensures !LocalComplementation(d, id).applied ==> LocalComplementation(d, id).graph == d
  {
    hide IsWhole, Complemented, Simple;
    FractionInside(d, id, 0.5);
  }

  /** Pivoting applies if and only if the two are adjacent, on no boundary, and of whole phases. */
  lemma PivotAppliesExactlyWhen(d: Diagram, u: int, v: int)
    requires Simple(d)
    ensures Pivot(d, u, v).applied
       <==> && HasEdge(d.edges, u, v)
            && (exists spider :: IsInside(d, spider) && spider.id == u && IsWhole(spider.phase))
            && (exists spider :: IsInside(d, spider) && spider.id == v && IsWhole(spider.phase))
    ensures !Pivot(d, u, v).applied ==> Pivot(d, u, v).graph == d
  {
    hide IsWhole, Pivoted, Simple, HasEdge;
    FractionInside(d, u, 0.0);
    FractionInside(d, v, 0.0);
  }

  // ---------------------------------------------------------------- where runs end

  /** No rewrite applies. */
  ghost predicate IsReduced(d: Diagram) {
    forall step: Step :: !Apply(d, step).applied
  }

  /** No spider inside is of phase +-pi/2, and no two adjacent ones are of phases 0 or pi. */
  ghost predicate HasNothingToRemove(d: Diagram) {
    && (forall spider :: IsInside(d, spider) ==> !IsWhole(spider.phase - 0.5))
    && forall s, t :: IsInside(d, s) && IsInside(d, t) && HasEdge(d.edges, s.id, t.id) ==>
         !IsWhole(s.phase) || !IsWhole(t.phase)
  }

  /** A run can be continued exactly as long as there is such a spider or such a pair. */
  lemma ReducedExactlyWhen(d: Diagram)
    requires Simple(d)
    ensures IsReduced(d) <==> HasNothingToRemove(d)
  {
    hide IsWhole, Simple, HasEdge, LocalComplementation, Pivot, IsInside;
    forall id: int
      ensures Apply(d, Complement(id)).applied
         <==> exists spider :: IsInside(d, spider) && spider.id == id && IsWhole(spider.phase - 0.5)
    {
      ComplementAppliesExactlyWhen(d, id);
    }
    forall u: int, v: int
      ensures Apply(d, PivotPair(u, v)).applied
         <==> && HasEdge(d.edges, u, v)
              && (exists spider :: IsInside(d, spider) && spider.id == u && IsWhole(spider.phase))
              && (exists spider :: IsInside(d, spider) && spider.id == v && IsWhole(spider.phase))
    {
      PivotAppliesExactlyWhen(d, u, v);
    }
    if IsReduced(d) {
      forall spider | IsInside(d, spider) ensures !IsWhole(spider.phase - 0.5) {
        assert !Apply(d, Complement(spider.id)).applied;
      }
      forall s, t | IsInside(d, s) && IsInside(d, t) && HasEdge(d.edges, s.id, t.id)
        ensures !IsWhole(s.phase) || !IsWhole(t.phase)
      {
        assert !Apply(d, PivotPair(s.id, t.id)).applied;
      }
    }
    if HasNothingToRemove(d) {
      forall step: Step ensures !Apply(d, step).applied {
        match step {
          case Complement(id) =>
          case PivotPair(u, v) =>
        }
      }
    }
  }

  /** Every diagram has a run to one with nothing left to remove, which has the same map up to a nonzero number. */
  lemma {:induction false} RunsReduce(chi: real -> Complex, r: real, d: Diagram) returns (steps: seq<Step>, d': Diagram)
    requires QuarterTurns(chi) && r != 0.0 && Simple(d)
    ensures IsRun(d, steps, d') && HasNothingToRemove(d') && d'.inputs == d.inputs && d'.outputs == d.outputs
    ensures SameMap(chi, r, d, d')
    decreases |d.spiders|
  {
    hide SameMap, QuarterTurns, Simple, HasNothingToRemove, Apply;
    if step: Step :| Apply(d, step).applied {
      var next := Apply(d, step).graph;
      var none: seq<Step> := [];
      assert IsRun(next, none, next) && [step][1..] == none;
      assert IsRun(d, [step], next);
      RunKeeps(chi, r, d, [step], next);
      var rest;
      rest, d' := RunsReduce(chi, r, next);
      steps := [step] + rest;
      assert steps[1..] == rest;
    } else {
      steps, d' := [], d;
      ReducedExactlyWhen(d);
    }
    RunKeeps(chi, r, d, steps, d');
  }
}
