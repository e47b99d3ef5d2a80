/** Bitwise AND on non-negative integers and the ring-buffer masks built from it. */
module Bits {
  function BitAnd(x: nat, m: nat): nat
    decreases x
  {
    if x == 0 || m == 0 then 0 else (if x % 2 == 1 && m % 2 == 1 then 1 else 0) + 2 * BitAnd(x / 2, m / 2)
  }

  function Pow2(k: nat): (p: nat)
    ensures p >= 1
  {
    if k == 0 then 1 else 2 * Pow2(k - 1)
  }

  ghost predicate IsPow2(n: int) { exists k: nat :: n == Pow2(k) }

  lemma BitAndBound(x: nat, m: nat)
    ensures BitAnd(x, m) <= x && BitAnd(x, m) <= m
  {
    if x != 0 && m != 0 { BitAndBound(x / 2, m / 2); }
  }

  lemma BitAndStep(x: nat, m: nat)
    ensures BitAnd(x, m) == (if x % 2 == 1 && m % 2 == 1 then 1 else 0) + 2 * BitAnd(x / 2, m / 2)
  {}

  lemma HalfMask(k: nat)
    requires k > 0
    ensures (Pow2(k) - 1) / 2 == Pow2(k - 1) - 1 && (Pow2(k) - 1) % 2 == 1
  {}

  /** Two numbers less than 2^k apart differ under the mask 2^k - 1. */
  lemma {:induction false} NearbyDiffer(i: nat, j: nat, k: nat)
    requires i < j < i + Pow2(k)
    ensures BitAnd(i, Pow2(k) - 1) != BitAnd(j, Pow2(k) - 1)
    decreases k
  {
    if k > 0 {
      var m := Pow2(k) - 1;
      HalfMask(k);
      BitAndStep(i, m);
      BitAndStep(j, m);
      if i % 2 == j % 2 {
        NearbyDiffer(i / 2, j / 2, k - 1);
      }
    }
  }

  lemma DoublePow2(h: int)
    requires IsPow2(h + 1)
    ensures IsPow2(2 * h + 2)
  {
    var k: nat :| h + 1 == Pow2(k);
    assert 2 * h + 2 == Pow2(k + 1);
  }

  /**
    Every mask of 4 or more that is not of the form 2^k - 1 merges two numbers between 1 and the mask,
    less than half the mask apart.
   */
  lemma {:induction false} MaskMerges(m: nat) returns (i: nat, j: nat)
    requires m >= 4 && !IsPow2(m + 1)
    ensures 1 <= i < j <= m && 2 * (j - i) <= m - 1 && BitAnd(i, m) == BitAnd(j, m)
  {
    if m % 2 == 0 {
      i, j := 2, 3;
      BitAndStep(2, m);
      BitAndStep(3, m);
    } else {
      var h := m / 2;
      assert m == 2 * h + 1;
      if h == 2 {
        i, j := 1, 3;
        assert BitAnd(1, 5) == 1 && BitAnd(3, 5) == 1;
      } else {
        assert Pow2(2) == 4;
        if IsPow2(h + 1) {
          DoublePow2(h);
          assert false;
        }
        i, j := MaskMerges(h);
        BitAndStep(2 * i, m);
        BitAndStep(2 * j, m);
        i, j := 2 * i, 2 * j;
      }
    }
  }
}
