/** The per-axis loop ceiling derived from a threshold (pointLimit). */
module Bounds {
  import opened Digits

  /** Every k in 1..L has digit sum at most t, so the axis points up to L are all admissible. */
  ghost predicate AxisWithin(t: int, L: int)
  {
    t >= 0 && forall k: nat :: 1 <= k <= L ==> AxisAdmissible(t, k)
  }

  /** The axis point at distance k is admissible for t. */
  predicate AxisAdmissible(t: int, k: nat)
  {
    DigitSum(k) <= t
  }

  /** L is where counting up from 0 stops: 1..L stay within t and L + 1 does not. */
  ghost predicate IsAxisBound(t: int, L: int)
  {
    L >= 0 && AxisWithin(t, L) && DigitSum(L + 1) > t
  }

  /** The number written with k ones: 0, 1, 11, 111, ... */
  function Repunit(k: nat): (r: nat)
    ensures k > 0 ==> r > 0
  {
    if k == 0 then 0 else 10 * Repunit(k - 1) + 1
  }

  /** k ones have digit sum k, so some number exceeds any threshold t (take t + 1 ones). */
  lemma {:induction false} RepunitDigitSum(k: nat)
    ensures DigitSum(Repunit(k)) == k
  {
    if k > 0 {
      var r := Repunit(k - 1);
      RepunitDigitSum(k - 1);
      DigitSumAppend(r, 1);
      assert Repunit(k) == 10 * r + 1;
    }
  }

  /**
   * pointLimit: count up from 0 while the next integer's digit sum stays within |value|.
   */
  method PointLimit(value: int) returns (limit: int)
    ensures IsAxisBound(Abs(value), limit)
  {
    limit := 0;
    var num := Abs(value);
    ghost var stopper := Repunit(num + 1);
    RepunitDigitSum(num + 1);
    var s := Sum(limit + 1);
    while s <= num
      invariant 0 <= limit < stopper
      invariant forall k: nat :: 1 <= k <= limit ==> AxisAdmissible(num, k)
      invariant s == DigitSum(limit + 1)
      decreases stopper - limit
    {
      limit := limit + 1;
      s := Sum(limit + 1);
    }
  }

  /** The bound is unique: at most one L stops the count for a given threshold. */
  lemma AxisBoundUnique(t: int, L1: int, L2: int)
    requires IsAxisBound(t, L1) && IsAxisBound(t, L2)
    ensures L1 == L2
  {
    assert L1 < L2 ==> AxisAdmissible(t, L1 + 1);
    assert L2 < L1 ==> AxisAdmissible(t, L2 + 1);
  }

  /** The limit of 5 is 5. */
  lemma AxisBoundOf5()
    ensures forall L :: IsAxisBound(5, L) <==> L == 5
  {
    forall k: nat | 1 <= k <= 5
      ensures AxisAdmissible(5, k)
    {
      DigitSumOfDigit(k);
    }
    DigitSumOfDigit(6);
    forall L | IsAxisBound(5, L)
      ensures L == 5
    {
      AxisBoundUnique(5, L, 5);
    }
  }

  /** The limit of 10 is 28: 29 has digit sum 11. */
  lemma AxisBoundOf10()
    ensures forall L :: IsAxisBound(10, L) <==> L == 28
  {
    forall k: nat | 1 <= k <= 28
      ensures AxisAdmissible(10, k)
    {
      DigitSumBelowThousand(k);
    }
    DigitSumBelowThousand(29);
    forall L | IsAxisBound(10, L)
      ensures L == 28
    {
      AxisBoundUnique(10, L, 28);
    }
  }

  /** The limit of 25 is 898: 899 has digit sum 26. */
  lemma AxisBoundOf25()
    ensures forall L :: IsAxisBound(25, L) <==> L == 898
  {
    forall k: nat | 1 <= k <= 898
      ensures AxisAdmissible(25, k)
    {
      DigitSumBelowThousand(k);
    }
    DigitSumBelowThousand(899);
    forall L | IsAxisBound(25, L)
      ensures L == 898
    {
      AxisBoundUnique(25, L, 898);
    }
  }
}
