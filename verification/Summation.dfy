/**
 * Sums of an amplitude over every 0/1 assignment of a list of variables.
 *
 * An assignment is the set of variables whose value is 1. The sum is the mathematical form of a loop that
 * counts `assignment` from 0 to 2^n - 1 and reads variable i as bit i.
 */
module Summation {
  import opened ComplexNumbers

  function ToSet(ids: seq<int>): set<int> {
    set id | id in ids
  }

  predicate Distinct(ids: seq<int>) {
    forall i, j :: 0 <= i < j < |ids| ==> ids[i] != ids[j]
  }

  function Without(ids: seq<int>, k: nat): seq<int>
    requires k < |ids|
  {
    ids[..k] + ids[k + 1..]
  }

  /** The sum of f(ones + T) over all subsets T of `ids` (for distinct ids). */
  ghost function Sum(ids: seq<int>, ones: set<int>, f: set<int> -> Complex): Complex {
    if |ids| == 0 then f(ones)
    else
      var rest, last := ids[..|ids| - 1], ids[|ids| - 1];
      Add(Sum(rest, ones, f), Sum(rest, ones + {last}, f))
  }

  /** `o` lies between the fixed ones and everything the list can still add. */
  predicate Between(ones: set<int>, ids: seq<int>, o: set<int>) {
    ones <= o && o <= ones + ToSet(ids)
  }

  lemma BetweenRest(ones: set<int>, ids: seq<int>, o: set<int>)
    requires |ids| > 0
    requires Between(ones, ids[..|ids| - 1], o) || Between(ones + {ids[|ids| - 1]}, ids[..|ids| - 1], o)
    ensures Between(ones, ids, o)
  {
    assert ToSet(ids) == ToSet(ids[..|ids| - 1]) + {ids[|ids| - 1]} by {
      assert ids == ids[..|ids| - 1] + [ids[|ids| - 1]];
    }
  }

  lemma {:induction false} SumCongruent(ids: seq<int>, ones: set<int>, f: set<int> -> Complex, g: set<int> -> Complex)
    requires forall o :: Between(ones, ids, o) ==> f(o) == g(o)
    ensures Sum(ids, ones, f) == Sum(ids, ones, g)
  {
    if |ids| == 0 {
      assert Between(ones, ids, ones);
    } else {
      var rest, last := ids[..|ids| - 1], ids[|ids| - 1];
      forall o | Between(ones, rest, o) || Between(ones + {last}, rest, o) ensures f(o) == g(o) {
        BetweenRest(ones, ids, o);
      }
      SumCongruent(rest, ones, f, g);
      SumCongruent(rest, ones + {last}, f, g);
    }
  }

  /** Linearity of the sum. */
  lemma {:induction false} SumScaled(
    ids: seq<int>, ones: set<int>, f: set<int> -> Complex, c: Complex, g: set<int> -> Complex)
    requires forall o :: Between(ones, ids, o) ==> f(o) == Mul(c, g(o))
    ensures Sum(ids, ones, f) == Mul(c, Sum(ids, ones, g))
  {
    if |ids| == 0 {
      assert Between(ones, ids, ones);
    } else {
      var rest, last := ids[..|ids| - 1], ids[|ids| - 1];
      forall o | Between(ones, rest, o) || Between(ones + {last}, rest, o) ensures f(o) == Mul(c, g(o)) {
        BetweenRest(ones, ids, o);
      }
      SumScaled(rest, ones, f, c, g);
      SumScaled(rest, ones + {last}, f, c, g);
      MulAdd(c, Sum(rest, ones, g), Sum(rest, ones + {last}, g));
    }
  }

  /** Folding the two values of one more variable `u` into the summand. */
  lemma {:induction false} SumPair(
    ids: seq<int>, ones: set<int>, u: int, f: set<int> -> Complex, c: Complex, g: set<int> -> Complex)
    requires forall o :: Between(ones, ids, o) ==> Add(f(o), f(o + {u})) == Mul(c, g(o))
    ensures Add(Sum(ids, ones, f), Sum(ids, ones + {u}, f)) == Mul(c, Sum(ids, ones, g))
  {
    if |ids| == 0 {
      assert Between(ones, ids, ones);
    } else {
      var rest, last := ids[..|ids| - 1], ids[|ids| - 1];
      forall o | Between(ones, rest, o) || Between(ones + {last}, rest, o)
        ensures Add(f(o), f(o + {u})) == Mul(c, g(o))
      {
        BetweenRest(ones, ids, o);
      }
      SumPair(rest, ones, u, f, c, g);
      SumPair(rest, ones + {last}, u, f, c, g);
      assert (ones + {last}) + {u} == (ones + {u}) + {last};
      MulAdd(c, Sum(rest, ones, g), Sum(rest, ones + {last}, g));
    }
  }

  /**
   * Summing out one variable: when adding the two values of variable `ids[k]` always gives c times a summand
   * over the other variables, the whole sum is c times the sum over the other variables.
   */
  lemma {:induction false} SumOut(
    ids: seq<int>, k: nat, ones: set<int>, f: set<int> -> Complex, c: Complex, g: set<int> -> Complex)
    requires k < |ids|
    requires forall o :: Between(ones, Without(ids, k), o) ==> Add(f(o), f(o + {ids[k]})) == Mul(c, g(o))
    ensures Sum(ids, ones, f) == Mul(c, Sum(Without(ids, k), ones, g))
  {
    var rest, last := ids[..|ids| - 1], ids[|ids| - 1];
    if k == |ids| - 1 {
      assert Without(ids, k) == rest;
      SumPair(rest, ones, last, f, c, g);
    } else {
      var w := Without(ids, k);
      assert w[..|w| - 1] == Without(rest, k) && w[|w| - 1] == last;
      forall o | Between(ones, Without(rest, k), o) || Between(ones + {last}, Without(rest, k), o)
        ensures Add(f(o), f(o + {rest[k]})) == Mul(c, g(o))
      {
        BetweenRest(ones, w, o);
      }
      SumOut(rest, k, ones, f, c, g);
      SumOut(rest, k, ones + {last}, f, c, g);
      MulAdd(c, Sum(Without(rest, k), ones, g), Sum(Without(rest, k), ones + {last}, g));
    }
  }

  /** Summing out two variables at once; the four value combinations fold into one summand. */
  lemma SumOutTwo(
    ids: seq<int>, j: nat, k: nat, f: set<int> -> Complex, c: Complex, g: set<int> -> Complex)
    requires j < |ids| && k < |ids| - 1
    requires var rest := Without(Without(ids, j), k); var u, v := ids[j], Without(ids, j)[k];
      forall o :: Between({}, rest, o) ==>
        Add(Add(f(o), f(o + {u})), Add(f(o + {v}), f(o + {v} + {u}))) == Mul(c, g(o))
    ensures Sum(ids, {}, f) == Mul(c, Sum(Without(Without(ids, j), k), {}, g))
  {
    var u := ids[j];
    var h := (o: set<int>) => Add(f(o), f(o + {u}));
    SumOut(ids, j, {}, f, ONE, h);
    SumOut(Without(ids, j), k, {}, h, c, g);
  }

  /** A summand that is nonzero at one assignment only. */
  lemma {:induction false} SumSingle(ids: seq<int>, ones: set<int>, f: set<int> -> Complex, at: set<int>)
    requires Distinct(ids) && ones !! ToSet(ids)
    requires forall o :: Between(ones, ids, o) && o != at ==> f(o) == ZERO
    ensures Sum(ids, ones, f) == if Between(ones, ids, at) then f(at) else ZERO
  {
    if |ids| == 0 {
      assert ToSet(ids) == {};
      assert Between(ones, ids, ones);
      assert Between(ones, ids, at) ==> at == ones;
    } else {
      var rest, last := ids[..|ids| - 1], ids[|ids| - 1];
      assert last in ids && last !in rest;
      forall o | (Between(ones, rest, o) || Between(ones + {last}, rest, o)) && o != at ensures f(o) == ZERO {
        BetweenRest(ones, ids, o);
      }
      SumSingle(rest, ones, f, at);
      SumSingle(rest, ones + {last}, f, at);
      assert ToSet(ids) == ToSet(rest) + {last} by { assert ids == rest + [last]; }
      assert Between(ones, ids, at) <==> Between(ones, rest, at) || Between(ones + {last}, rest, at);
      assert !(Between(ones, rest, at) && Between(ones + {last}, rest, at));
    }
  }
}
