/** Bits of a basis index, and basis indices as sets of the positions whose bit is 1. */
module Bits {

  function Pow2(n: nat): (p: nat)
    ensures p >= 1
  {
    if n == 0 then 1 else 2 * Pow2(n - 1)
  }

  /** (k >> i) & 1 */
  predicate BitAt(k: nat, i: nat) {
    if i == 0 then k % 2 == 1 else BitAt(k / 2, i - 1)
  }

  /** The first n bits of k as a set of positions. */
  function Ones(n: nat, k: nat): set<int> {
    set i: nat | i < n && BitAt(k, i) :: i
  }

  /** The index below 2^n whose bits are exactly those listed. */
  function Index(n: nat, ones: set<int>): (k: nat)
    ensures k < Pow2(n)
  {
    if n == 0 then 0 else Index(n - 1, ones) + if n - 1 in ones then Pow2(n - 1) else 0
  }

  /** Adding 2^q to an index whose bit q is clear sets that bit and no other. */
  lemma {:induction false} SetBit(k: nat, q: nat, i: nat)
    requires !BitAt(k, q)
    ensures BitAt(k + Pow2(q), i) == (BitAt(k, i) || i == q)
  {
    if q == 0 {
      assert (k + 1) / 2 == k / 2;
    } else {
      assert (k + Pow2(q)) / 2 == k / 2 + Pow2(q - 1) && (k + Pow2(q)) % 2 == k % 2;
      if i > 0 { SetBit(k / 2, q - 1, i - 1); }
    }
  }

  lemma {:induction false} BitClear(n: nat, k: nat, i: nat)
    requires k < Pow2(n) && n <= i
    ensures !BitAt(k, i)
  {
    if n == 0 {
      assert k == 0;
      if i > 0 { BitClear(0, 0, i - 1); }
    } else {
      BitClear(n - 1, k / 2, i - 1);
    }
  }

  lemma {:induction false} BitsOfIndex(n: nat, ones: set<int>, i: nat)
    ensures BitAt(Index(n, ones), i) == (i < n && i in ones)
  {
    if n == 0 {
      BitClear(0, 0, i);
    } else {
      BitsOfIndex(n - 1, ones, i);
      if n - 1 in ones {
        BitClear(n - 1, Index(n - 1, ones), n - 1);
        SetBit(Index(n - 1, ones), n - 1, i);
      }
    }
  }

  /** An index below 2^n is determined by its first n bits. */
  lemma {:induction false} IndexOfBits(n: nat, k: nat)
    requires k < Pow2(n)
    ensures Index(n, Ones(n, k)) == k
  {
    if n > 0 {
      var h := Pow2(n - 1);
      if k < h {
        BitClear(n - 1, k, n - 1);
        assert Ones(n, k) == Ones(n - 1, k);
        IndexOfBits(n - 1, k);
      } else {
        var j := k - h;
        BitClear(n - 1, j, n - 1);
        forall i: nat ensures BitAt(k, i) == (BitAt(j, i) || i == n - 1) {
          SetBit(j, n - 1, i);
        }
        assert Ones(n, k) == Ones(n - 1, j) + {n - 1};
        IndexOfBits(n - 1, j);
        IndexIgnores(n - 1, Ones(n - 1, j), n - 1);
      }
    }
  }

  lemma {:induction false} IndexIgnores(n: nat, ones: set<int>, x: int)
    requires x >= n
    ensures Index(n, ones + {x}) == Index(n, ones)
  {
    if n > 0 { IndexIgnores(n - 1, ones, x); }
  }

  lemma OnesOfIndex(n: nat, ones: set<int>)
    requires forall i :: i in ones ==> 0 <= i < n
    ensures Ones(n, Index(n, ones)) == ones
  {
    forall i: nat ensures BitAt(Index(n, ones), i) == (i < n && i in ones) {
      BitsOfIndex(n, ones, i);
    }
    forall i | i in ones ensures i in Ones(n, Index(n, ones)) {
      var j: nat := i;
      assert BitAt(Index(n, ones), j);
    }
  }
}
