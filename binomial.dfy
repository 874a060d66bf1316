/**
 * The sensor noise: a binomial distribution with success probability
 * `p = 1/2`, shifted by its mean `n * p`. With `p` fixed at one half the
 * probability mass function is exact over the rationals:
 * `pmf(k; n, 1/2) = C(n, k) / 2^n` at integer `k` in `[0, n]` and 0 anywhere
 * else, including at readings that are not whole numbers.
 */
module Binomial {
  import opened Sums

  /** The success probability of every trial (`self.p`). */
  const P: real := 0.5

  /**
   * The number of trials, `int(variance / (p * (1 - p)))`. Python's `int`
   * truncates toward zero; it does not round.
   */
  function NumTrials(variance: real): (n: int)
    ensures variance >= 0.0 ==> 0 <= n && n as real <= 4.0 * variance < n as real + 1.0
    ensures variance < 0.0 ==> n <= 0 && n as real - 1.0 < 4.0 * variance <= n as real
  {
    var ratio := variance / (P * (1.0 - P));
    if ratio >= 0.0 then ratio.Floor else -((-ratio).Floor)
  }

  function Choose(n: nat, k: nat): nat {
    if k == 0 then 1 else if n == 0 then 0 else Choose(n - 1, k - 1) + Choose(n - 1, k)
  }

  function Pow2(n: nat): (r: nat)
    ensures r > 0
  {
    if n == 0 then 1 else 2 * Pow2(n - 1)
  }

  /** `k` is a whole number of successes out of `n` trials. */
  predicate InSupport(k: real, n: nat) {
    k == k.Floor as real && 0 <= k.Floor <= n
  }

  /** `scipy.stats.binom.pmf(k, n, 0.5)`. */
  function Pmf(k: real, n: nat): (r: real)
    ensures r >= 0.0
  {
    if InSupport(k, n) then Choose(n, k.Floor) as real / Pow2(n) as real else 0.0
  }

  lemma {:induction false} ChooseAboveN(n: nat, k: nat)
    requires k > n
    ensures Choose(n, k) == 0
  {
    if n > 0 {
      ChooseAboveN(n - 1, k - 1);
      ChooseAboveN(n - 1, k);
    }
  }

  lemma {:induction false} ChoosePositive(n: nat, k: nat)
    requires k <= n
    ensures Choose(n, k) > 0
  {
    if k > 0 {
      ChoosePositive(n - 1, k - 1);
    }
  }

  /** `C(n, 0) + ... + C(n, m - 1)`. */
  function RowTotal(n: nat, m: nat): nat {
    if m == 0 then 0 else RowTotal(n, m - 1) + Choose(n, m - 1)
  }

  /** Pascal's rule, added up along a row. */
  lemma {:induction false} RowTotalPascal(n: nat, m: nat)
    ensures RowTotal(n + 1, m + 1) == RowTotal(n, m + 1) + RowTotal(n, m)
  {
    if m > 0 {
      RowTotalPascal(n, m - 1);
    }
  }

  /** The binomial coefficients of row `n` add up to `2^n`. */
  lemma {:induction false} RowTotalIsPow2(n: nat)
    ensures RowTotal(n, n + 1) == Pow2(n)
  {
    if n > 0 {
      RowTotalIsPow2(n - 1);
      RowTotalPascal(n - 1, n);
      ChooseAboveN(n - 1, n);
    }
  }

  lemma {:induction false} RowTotalAsSum(n: nat, m: nat)
    ensures SumSeq(seq(m, j requires 0 <= j < m => Choose(n, j) as real)) == RowTotal(n, m) as real
  {
    if m > 0 {
      var s := seq(m, j requires 0 <= j < m => Choose(n, j) as real);
      assert s[..m - 1] == seq(m - 1, j requires 0 <= j < m - 1 => Choose(n, j) as real);
      RowTotalAsSum(n, m - 1);
    }
  }

  /** The mass function is a distribution: it sums to 1 over the outcomes `0, ..., n`. */
  lemma PmfSumsToOne(n: nat)
    ensures SumSeq(seq(n + 1, j requires 0 <= j < n + 1 => Pmf(j as real, n))) == 1.0
  {
    var total := Pow2(n) as real;
    var counts := seq(n + 1, j requires 0 <= j < n + 1 => Choose(n, j) as real);
    var masses := seq(n + 1, j requires 0 <= j < n + 1 => Pmf(j as real, n));
    forall j | 0 <= j < n + 1 ensures masses[j] == counts[j] / total {
      PmfAtWhole(j, n);
    }
    SumSeqDivide(counts, masses, total);
    RowSumsToPow2(n);
    QuotientSelf(total);
  }

  /** `C(n, 0) + ... + C(n, n) == 2^n`, as a sum of reals. */
  lemma RowSumsToPow2(n: nat)
    ensures SumSeq(seq(n + 1, j requires 0 <= j < n + 1 => Choose(n, j) as real)) == Pow2(n) as real
  {
    RowTotalAsSum(n, n + 1);
    RowTotalIsPow2(n);
  }

  lemma PmfAtWhole(j: nat, n: nat)
    requires j <= n
    ensures Pmf(j as real, n) == Choose(n, j) as real / Pow2(n) as real
  {
    assert (j as real).Floor == j;
    assert InSupport(j as real, n);
  }

  lemma QuotientBounds(x: real, y: real)
    requires 0.0 < x <= y
    ensures 0.0 < x / y <= 1.0
  {
  }

  /** The mass is positive exactly on the support, and no mass exceeds 1. */
  lemma PmfPositiveIff(k: real, n: nat)
    ensures Pmf(k, n) > 0.0 <==> InSupport(k, n)
    ensures Pmf(k, n) <= 1.0
  {
    if InSupport(k, n) {
      var j := k.Floor;
      ChoosePositive(n, j);
      RowTotalBound(n, n + 1, j);
      RowTotalIsPow2(n);
      QuotientBounds(Choose(n, j) as real, Pow2(n) as real);
      assert Pmf(k, n) == Choose(n, j) as real / Pow2(n) as real;
    } else {
      assert Pmf(k, n) == 0.0;
    }
  }

  lemma {:induction false} RowTotalBound(n: nat, m: nat, j: nat)
    requires j < m
    ensures Choose(n, j) <= RowTotal(n, m)
  {
    if j < m - 1 {
      RowTotalBound(n, m - 1, j);
    }
  }

  /** With `p = 1/2` the noise is symmetric about its mean: `k` and `n - k` successes are equally likely. */
  lemma PmfSymmetric(k: real, n: nat)
    ensures Pmf(k, n) == Pmf(n as real - k, n)
  {
    var k' := n as real - k;
    if InSupport(k, n) {
      assert k'.Floor == n - k.Floor;
      ChooseSymmetric(n, k.Floor);
    }
  }

  lemma {:induction false} ChooseSymmetric(n: nat, k: nat)
    requires k <= n
    ensures Choose(n, k) == Choose(n, n - k)
  {
    if 0 < k < n {
      ChooseSymmetric(n - 1, k - 1);
      ChooseSymmetric(n - 1, k);
    } else if k == 0 && n > 0 {
      ChooseDiagonal(n);
    } else if k == n && n > 0 {
      ChooseDiagonal(n);
    }
  }

  lemma {:induction false} ChooseDiagonal(n: nat)
    ensures Choose(n, n) == 1
  {
    if n > 0 {
      ChooseDiagonal(n - 1);
      ChooseAboveN(n - 1, n);
    }
  }
}
