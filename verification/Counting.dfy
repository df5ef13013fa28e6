/** Counting through the integers below 2^n visits every 0/1 assignment of n positions once. */
module Counting {
  import opened Bits
  import opened ComplexNumbers
  import opened Summation

  /** The positions set to 1 by an integer assignment. */
  function OnesOf(ids: seq<int>, assignment: nat): set<int> {
    set i | 0 <= i < |ids| && BitAt(assignment, i) :: ids[i]
  }

  /** The running total of a loop over assignments. */
  ghost function RangeSum(ids: seq<int>, ones: set<int>, f: set<int> -> Complex, count: nat): Complex {
    if count == 0 then ZERO else Add(RangeSum(ids, ones, f, count - 1), f(ones + OnesOf(ids, count - 1)))
  }

  lemma OnesBelow(ids: seq<int>, a: nat)
    requires |ids| > 0 && a < Pow2(|ids| - 1)
    ensures OnesOf(ids, a) == OnesOf(ids[..|ids| - 1], a)
  {
    BitClear(|ids| - 1, a, |ids| - 1);
    var rest := ids[..|ids| - 1];
    forall x | x in OnesOf(ids, a) ensures x in OnesOf(rest, a) {
      var i :| 0 <= i < |ids| && BitAt(a, i) && ids[i] == x;
      assert rest[i] == x;
    }
    forall x | x in OnesOf(rest, a) ensures x in OnesOf(ids, a) {
      var i :| 0 <= i < |rest| && BitAt(a, i) && rest[i] == x;
      assert ids[i] == x;
    }
  }

  lemma OnesAbove(ids: seq<int>, a: nat)
    requires |ids| > 0 && a < Pow2(|ids| - 1)
    ensures OnesOf(ids, Pow2(|ids| - 1) + a) == OnesOf(ids[..|ids| - 1], a) + {ids[|ids| - 1]}
  {
    var n := |ids| - 1;
    BitClear(n, a, n);
    forall i: nat ensures BitAt(Pow2(n) + a, i) == (BitAt(a, i) || i == n) {
      SetBit(a, n, i);
    }
    assert ids[n] in OnesOf(ids, Pow2(n) + a);
    var rest := ids[..n];
    forall x | x in OnesOf(rest, a) ensures x in OnesOf(ids, Pow2(n) + a) {
      var i :| 0 <= i < |rest| && BitAt(a, i) && rest[i] == x;
      assert ids[i] == x && BitAt(Pow2(n) + a, i);
    }
    forall x | x in OnesOf(ids, Pow2(n) + a) ensures x in OnesOf(rest, a) + {ids[n]} {
      var i :| 0 <= i < |ids| && BitAt(Pow2(n) + a, i) && ids[i] == x;
      if i < n { assert rest[i] == x && BitAt(a, i); }
    }
  }

  lemma {:induction false} RangeBelow(ids: seq<int>, ones: set<int>, f: set<int> -> Complex, count: nat)
    requires |ids| > 0 && count <= Pow2(|ids| - 1)
    ensures RangeSum(ids, ones, f, count) == RangeSum(ids[..|ids| - 1], ones, f, count)
  {
    hide Add, OnesOf;
    if count > 0 {
      RangeBelow(ids, ones, f, count - 1);
      OnesBelow(ids, count - 1);
    }
  }

  lemma {:induction false} RangeAbove(ids: seq<int>, ones: set<int>, f: set<int> -> Complex, count: nat)
    requires |ids| > 0 && count <= Pow2(|ids| - 1)
    ensures RangeSum(ids, ones, f, Pow2(|ids| - 1) + count)
         == Add(RangeSum(ids, ones, f, Pow2(|ids| - 1)), RangeSum(ids[..|ids| - 1], ones + {ids[|ids| - 1]}, f, count))
  {
    hide OnesOf, Pow2;
    if count > 0 {
      var rest, last, h := ids[..|ids| - 1], ids[|ids| - 1], Pow2(|ids| - 1);
      RangeAbove(ids, ones, f, count - 1);
      OnesAbove(ids, count - 1);
      assert h + count - 1 == h + (count - 1);
      assert ones + (OnesOf(rest, count - 1) + {last}) == (ones + {last}) + OnesOf(rest, count - 1);
    }
  }

  lemma RangeOfOne(ones: set<int>, f: set<int> -> Complex)
    ensures RangeSum([], ones, f, 1) == f(ones)
  {
    hide Add;
    assert ones + OnesOf([], 0) == ones;
    assert RangeSum([], ones, f, 1) == Add(RangeSum([], ones, f, 0), f(ones + OnesOf([], 0)));
    AddZero(f(ones));
  }

  lemma RangeHalves(ids: seq<int>, ones: set<int>, f: set<int> -> Complex)
    requires |ids| > 0
    ensures var rest, h := ids[..|ids| - 1], Pow2(|ids| - 1);
      RangeSum(ids, ones, f, Pow2(|ids|))
        == Add(RangeSum(rest, ones, f, h), RangeSum(rest, ones + {ids[|ids| - 1]}, f, h))
  {
    hide Add, RangeSum, OnesOf;
    var h := Pow2(|ids| - 1);
    assert Pow2(|ids|) == h + h;
    RangeAbove(ids, ones, f, h);
    RangeBelow(ids, ones, f, h);
  }

  /** Counting through all 2^n integers visits every assignment exactly once. */
  lemma {:induction false} RangeIsSum(ids: seq<int>, ones: set<int>, f: set<int> -> Complex)
    ensures RangeSum(ids, ones, f, Pow2(|ids|)) == Sum(ids, ones, f)
  {
    hide Add, RangeSum, OnesOf;
    if |ids| == 0 {
      assert ids == [];
      RangeOfOne(ones, f);
    } else {
      var rest, last := ids[..|ids| - 1], ids[|ids| - 1];
      RangeHalves(ids, ones, f);
      RangeIsSum(rest, ones, f);
      RangeIsSum(rest, ones + {last}, f);
    }
  }

  lemma RangeStart(ids: seq<int>, f: set<int> -> Complex)
    ensures RangeSum(ids, {}, f, 0) == ZERO
  {
  }

  lemma RangeStep(ids: seq<int>, f: set<int> -> Complex, count: nat)
    ensures RangeSum(ids, {}, f, count + 1) == Add(RangeSum(ids, {}, f, count), f(OnesOf(ids, count)))
  {
    assert {} + OnesOf(ids, count) == OnesOf(ids, count);
  }
}
