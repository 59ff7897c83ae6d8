/** Decimal digit sums: the admissibility score of a coordinate and of a point. */
module Digits {

  /** Math.abs on unbounded integers. */
  function Abs(v: int): (r: nat)
    ensures r == v || r == -v
  {
    if v < 0 then -v else v
  }

  /** Sum of the decimal digits of n; the reference definition the loops are proved against. */
  function DigitSum(n: nat): (r: nat)
    ensures r <= n
    ensures r == 0 <==> n == 0
    decreases n
  {
    if n == 0 then 0 else n % 10 + DigitSum(n / 10)
  }

  /** One unfolding of DigitSum that also holds at 0. */
  lemma DigitSumStep(n: nat)
    ensures DigitSum(n) == n % 10 + DigitSum(n / 10)
  {
  }

  /** Writing a digit d after the digits of m adds d to the digit sum. */
  lemma DigitSumAppend(m: nat, d: nat)
    requires d < 10
    ensures DigitSum(10 * m + d) == DigitSum(m) + d
  {
    var n := 10 * m + d;
    assert n % 10 == d && n / 10 == m;
    DigitSumStep(n);
  }

  /** A single digit is its own digit sum. */
  lemma DigitSumOfDigit(d: nat)
    requires d < 10
    ensures DigitSum(d) == d
  {
    DigitSumStep(d);
  }

  /** Below 1000 the digit sum is hundreds + tens + units. */
  lemma DigitSumBelowThousand(n: nat)
    requires n < 1000
    ensures DigitSum(n) == n / 100 + (n / 10) % 10 + n % 10
  {
    DigitSumStep(n);
    DigitSumStep(n / 10);
    assert n / 10 / 10 == n / 100;
    DigitSumOfDigit(n / 100);
  }

  /** The digit sum of a negated value is the digit sum of the value. */
  lemma DigitSumOfNegation(v: int)
    ensures DigitSum(Abs(-v)) == DigitSum(Abs(v))
  {
  }

  /**
   * sum(int): the %10 / /10 loop over |value|.
   */
  method Sum(value: int) returns (s: int)
    ensures s == DigitSum(Abs(value))
  {
    s := 0;
    var num: int := Abs(value);
    while num > 0
      invariant num >= 0
      invariant s + DigitSum(num) == DigitSum(Abs(value))
      decreases num
    {
      var rem := num % 10;
      num := num / 10;
      s := s + rem;
    }
  }

  /** Admissibility score of a point: the digit sums of its two coordinates added up. */
  function Score(p: (int, int)): nat
  {
    DigitSum(Abs(p.0)) + DigitSum(Abs(p.1))
  }

  /**
   * sum(int, int): the score of a point, as the sum of the two coordinates' digit sums.
   */
  method PointSum(x: int, y: int) returns (s: int)
    ensures s == Score((x, y))
  {
    var sx := Sum(x);
    var sy := Sum(y);
    s := sx + sy;
  }

  /** Only the origin scores 0; every other point scores at least 1. */
  lemma ScoreZeroOnlyAtOrigin(x: int, y: int)
    ensures Score((x, y)) == 0 <==> x == 0 && y == 0
  {
  }

  /** The score does not change under reflection in either axis or under swapping the coordinates. */
  lemma ScoreSymmetric(x: int, y: int)
    ensures Score((-x, y)) == Score((x, y))
    ensures Score((x, -y)) == Score((x, y))
    ensures Score((y, x)) == Score((x, y))
  {
  }

  /** The two documented examples: (59, 79) scores 30 and (-5, -7) scores 12. */
  lemma ScoreExamples()
    ensures Score((59, 79)) == 30
    ensures Score((-5, -7)) == 12
  {
    DigitSumBelowThousand(59);
    DigitSumBelowThousand(79);
    DigitSumOfDigit(5);
    DigitSumOfDigit(7);
  }
}
