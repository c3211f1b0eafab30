/** The one-sided binomial test the back-tests report: the probability of at
    least `k` successes in `n` fair coin flips, computed exactly from binomial
    coefficients, and the rounding to six decimal places applied to it. */
module Binomial {

  /** The binomial coefficient, by Pascal's rule. */
  function Choose(n: nat, k: nat): (c: nat)
    ensures k > n ==> c == 0
  {
    if k == 0 then 1 else if n == 0 then 0 else Choose(n - 1, k - 1) + Choose(n - 1, k)
  }

  function Pow2(n: nat): (p: nat)
    ensures p >= 1
  {
    if n == 0 then 1 else 2 * Pow2(n - 1)
  }

  /** `Choose(n, 0) + … + Choose(n, m - 1)`. */
  function RowSum(n: nat, m: nat): nat
  {
    if m == 0 then 0 else RowSum(n, m - 1) + Choose(n, m - 1)
  }

  /** `Choose(n, k) + … + Choose(n, n)`: the outcomes with at least `k` successes. */
  function Tail(n: nat, k: nat): nat
    decreases n + 1 - k
  {
    if k > n then 0 else Choose(n, k) + Tail(n, k + 1)
  }

  lemma {:induction false} ChooseAll(n: nat)
    ensures Choose(n, n) == 1
  {
    if n > 0 {
      ChooseAll(n - 1);
    }
  }

  /** Pascal's rule summed over a prefix of the row. */
  lemma {:induction false} PascalRow(n: nat, m: nat)
    requires n >= 1 && m >= 1
    ensures RowSum(n, m) == RowSum(n - 1, m - 1) + RowSum(n - 1, m)
  {
    if m > 1 {
      PascalRow(n, m - 1);
    }
  }

  /** Past the end of the row every coefficient is zero. */
  lemma {:induction false} RowSumSaturates(n: nat, m: nat)
    requires m > n
    ensures RowSum(n, m) == RowSum(n, n + 1)
  {
    if m > n + 1 {
      RowSumSaturates(n, m - 1);
    }
  }

  /** A row of Pascal's triangle sums to `2^n`. */
  lemma {:induction false} RowTotal(n: nat)
    ensures RowSum(n, n + 1) == Pow2(n)
  {
    if n > 0 {
      RowTotal(n - 1);
      PascalRow(n, n + 1);
      RowSumSaturates(n - 1, n + 1);
    }
  }

  /** The outcomes below `k` and those from `k` on make up the whole row. */
  lemma {:induction false} TailSplit(n: nat, k: nat)
    requires k <= n + 1
    ensures RowSum(n, k) + Tail(n, k) == Pow2(n)
    decreases n + 1 - k
  {
    if k == n + 1 {
      RowTotal(n);
    } else {
      TailSplit(n, k + 1);
    }
  }

  lemma {:induction false} TailMonotone(n: nat, k1: nat, k2: nat)
    requires k1 <= k2
    ensures Tail(n, k2) <= Tail(n, k1)
    decreases k2 - k1
  {
    if k1 < k2 {
      TailMonotone(n, k1 + 1, k2);
    }
  }

  /** `binomtest(k, n, p=0.5, alternative='greater').pvalue`: the probability
      of at least `k` successes in `n` fair trials. */
  function PGreater(k: nat, n: nat): (p: real)
    requires k <= n
    ensures 0.0 <= p <= 1.0
  {
    TailSplit(n, k);
    Fraction(Tail(n, k) as real, Pow2(n) as real);
    Tail(n, k) as real / Pow2(n) as real
  }

  lemma Fraction(a: real, d: real)
    requires 0.0 <= a <= d && d > 0.0
    ensures 0.0 <= a / d <= 1.0
  {
    assert a / d * d == a;
  }

  /** At least zero successes is certain. */
  lemma PGreaterOfZero(n: nat)
    ensures PGreater(0, n) == 1.0
  {
    TailSplit(n, 0);
  }

  /** All `n` trials succeeding has probability `1 / 2^n`. */
  lemma PGreaterOfAll(n: nat)
    ensures PGreater(n, n) == 1.0 / Pow2(n) as real
  {
    ChooseAll(n);
    assert Tail(n, n + 1) == 0;
  }

  /** More successes are never more likely. */
  lemma PGreaterMonotone(k1: nat, k2: nat, n: nat)
    requires k1 <= k2 <= n
    ensures PGreater(k2, n) <= PGreater(k1, n)
  {
    TailMonotone(n, k1, k2);
    QuotientMonotone(Tail(n, k2) as real, Tail(n, k1) as real, Pow2(n) as real);
  }

  lemma QuotientMonotone(a: real, b: real, d: real)
    requires a <= b && d > 0.0
    ensures a / d <= b / d
  {
  }

  const Scale: real := 1000000.0

  /** Python's `round(x, 6)`: the nearest multiple of 10^-6, ties to the even multiple. */
  function Round6(x: real): real
  {
    var s := x * Scale;
    var f := s.Floor;
    var d := s - f as real;
    var r := if d < 0.5 then f else if d > 0.5 then f + 1 else if f % 2 == 0 then f else f + 1;
    r as real / Scale
  }

  /** Rounding moves a value by at most half a unit of the sixth decimal. */
  lemma RoundingError(x: real)
    ensures -0.0000005 <= Round6(x) - x <= 0.0000005
  {
  }

  /** Rounding keeps a probability a probability. */
  lemma RoundedProbability(x: real)
    requires 0.0 <= x <= 1.0
    ensures 0.0 <= Round6(x) <= 1.0
  {
    var s := x * Scale;
    assert 0 <= s.Floor <= 1000000;
  }

  /** Rounding twice is rounding once. */
  lemma RoundIdempotent(x: real)
    ensures Round6(Round6(x)) == Round6(x)
  {
    var s := x * Scale;
    var f := s.Floor;
    var d := s - f as real;
    var r := if d < 0.5 then f else if d > 0.5 then f + 1 else if f % 2 == 0 then f else f + 1;
    assert Round6(x) == r as real / Scale;
    assert Round6(x) * Scale == r as real;
    assert (r as real).Floor == r;
  }
}
