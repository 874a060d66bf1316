/**
 * Exact sums over sequences and W x H matrices of reals.
 *
 * A matrix is indexed `m[w][h]`, column `w` first, as the belief and sensor
 * arrays of the filter are. A tensor is indexed `t[k][l][w][h]`: `t[k][l]`
 * is the matrix of weights that source cells `(w, h)` send to cell `(k, l)`.
 * These are the sums that numpy's `np.sum` and `np.einsum` compute.
 */
module Sums {

  type Matrix = seq<seq<real>>
  type Tensor = seq<seq<Matrix>>

  /** `m` has `width` columns of `height` entries each. */
  predicate IsShape(m: Matrix, width: nat, height: nat) {
    |m| == width && forall w :: 0 <= w < |m| ==> |m[w]| == height
  }

  /** `t` is a `width x height` grid of `width x height` matrices. */
  predicate IsTensor(t: Tensor, width: nat, height: nat) {
    && |t| == width
    && (forall k :: 0 <= k < |t| ==> |t[k]| == height)
    && (forall k, l :: 0 <= k < |t| && 0 <= l < |t[k]| ==> IsShape(t[k][l], width, height))
  }

  predicate NonNegative(m: Matrix) {
    forall w, h :: 0 <= w < |m| && 0 <= h < |m[w]| ==> m[w][h] >= 0.0
  }

  function SumSeq(s: seq<real>): real {
    if |s| == 0 then 0.0 else SumSeq(s[..|s| - 1]) + s[|s| - 1]
  }

  function RowSums(m: Matrix): seq<real> {
    seq(|m|, w requires 0 <= w < |m| => SumSeq(m[w]))
  }

  /** The sum of every entry of `m` (numpy's `np.sum`). */
  function SumMatrix(m: Matrix): real {
    SumSeq(RowSums(m))
  }

  /** The `width x height` matrix whose entry `(w, h)` is the sum of entry `(w, h)` of every matrix in `ms`. */
  function PointwiseTotal(ms: seq<Matrix>, width: nat, height: nat): (r: Matrix)
    requires forall i :: 0 <= i < |ms| ==> IsShape(ms[i], width, height)
    ensures IsShape(r, width, height)
  {
    seq(width, w requires 0 <= w < width =>
      seq(height, h requires 0 <= h < height =>
        SumSeq(seq(|ms|, i requires 0 <= i < |ms| => assert IsShape(ms[i], width, height); ms[i][w][h]))))
  }

  /** Entry `(w, h)` of every matrix of the tensor, as a matrix indexed `(k, l)`: what source `(w, h)` sends where. */
  function Column(t: Tensor, width: nat, height: nat, w: nat, h: nat): (c: Matrix)
    requires IsTensor(t, width, height) && w < width && h < height
    ensures IsShape(c, width, height)
  {
    seq(width, k requires 0 <= k < width => seq(height, l requires 0 <= l < height => t[k][l][w][h]))
  }

  lemma QuotientSum(p: real, q: real, y: real)
    requires y != 0.0
    ensures p / y + q / y == (p + q) / y
  {
  }

  lemma QuotientSelf(y: real)
    requires y != 0.0
    ensures y / y == 1.0 && (1.0 / y) * y == 1.0
  {
  }

  /** Dividing every term by `y` divides the sum by `y`. */
  lemma {:induction false} SumSeqDivide(a: seq<real>, c: seq<real>, y: real)
    requires |a| == |c| && y != 0.0
    requires forall i :: 0 <= i < |c| ==> c[i] == a[i] / y
    ensures SumSeq(c) == SumSeq(a) / y
  {
    if |c| > 0 {
      var n := |c| - 1;
      SumSeqDivide(a[..n], c[..n], y);
      QuotientSum(SumSeq(a[..n]), a[n], y);
    }
  }

  /** Scaling every term scales the sum. */
  lemma {:induction false} SumSeqScale(a: seq<real>, c: seq<real>, x: real)
    requires |a| == |c|
    requires forall i :: 0 <= i < |c| ==> c[i] == x * a[i]
    ensures SumSeq(c) == x * SumSeq(a)
  {
    if |c| > 0 {
      var n := |c| - 1;
      SumSeqScale(a[..n], c[..n], x);
      assert SumSeq(c) == x * SumSeq(a[..n]) + x * a[n];
    }
  }

  /** The sum of a pointwise sum is the sum of the sums. */
  lemma {:induction false} SumSeqAdd(a: seq<real>, b: seq<real>, c: seq<real>)
    requires |a| == |b| == |c|
    requires forall i :: 0 <= i < |c| ==> c[i] == a[i] + b[i]
    ensures SumSeq(c) == SumSeq(a) + SumSeq(b)
  {
    if |c| > 0 {
      var n := |c| - 1;
      SumSeqAdd(a[..n], b[..n], c[..n]);
    }
  }

  lemma {:induction false} SumSeqNonNegative(s: seq<real>)
    requires forall i :: 0 <= i < |s| ==> s[i] >= 0.0
    ensures SumSeq(s) >= 0.0
  {
    if |s| > 0 {
      SumSeqNonNegative(s[..|s| - 1]);
    }
  }

  /** A sum of non-negative terms is 0 exactly when every term is 0. */
  lemma {:induction false} SumSeqZeroIff(s: seq<real>)
    requires forall i :: 0 <= i < |s| ==> s[i] >= 0.0
    ensures SumSeq(s) == 0.0 <==> forall i :: 0 <= i < |s| ==> s[i] == 0.0
  {
    if |s| > 0 {
      var n := |s| - 1;
      SumSeqZeroIff(s[..n]);
      SumSeqNonNegative(s[..n]);
      if SumSeq(s) == 0.0 {
        forall i | 0 <= i < |s| ensures s[i] == 0.0 {
          if i < n { assert s[..n][i] == s[i]; }
        }
      } else {
        assert SumSeq(s[..n]) != 0.0 || s[n] != 0.0;
      }
    }
  }

  /** Changing one term changes the sum by the difference. */
  lemma {:induction false} SumSeqUpdate(s: seq<real>, i: nat, v: real)
    requires i < |s|
    ensures SumSeq(s[i := v]) == SumSeq(s) - s[i] + v
  {
    var n := |s| - 1;
    if i < n {
      assert s[i := v][..n] == s[..n][i := v];
      SumSeqUpdate(s[..n], i, v);
    } else {
      assert s[i := v][..n] == s[..n];
    }
  }

  lemma {:induction false} SumSeqConstant(s: seq<real>, v: real)
    requires forall i :: 0 <= i < |s| ==> s[i] == v
    ensures SumSeq(s) == |s| as real * v
  {
    if |s| > 0 {
      SumSeqConstant(s[..|s| - 1], v);
    }
  }

  /** Scaling every entry of a matrix scales its sum. */
  lemma SumMatrixScale(a: Matrix, c: Matrix, x: real, width: nat, height: nat)
    requires IsShape(a, width, height) && IsShape(c, width, height)
    requires forall w, h :: 0 <= w < width && 0 <= h < height ==> c[w][h] == x * a[w][h]
    ensures SumMatrix(c) == x * SumMatrix(a)
  {
    var ra, rc := RowSums(a), RowSums(c);
    forall w | 0 <= w < width
      ensures rc[w] == x * ra[w]
    {
      SumSeqScale(a[w], c[w], x);
    }
    SumSeqScale(ra, rc, x);
  }

  /** The sum of a pointwise sum of matrices is the sum of their sums. */
  lemma SumMatrixAdd(a: Matrix, b: Matrix, c: Matrix, width: nat, height: nat)
    requires IsShape(a, width, height) && IsShape(b, width, height) && IsShape(c, width, height)
    requires forall w, h :: 0 <= w < width && 0 <= h < height ==> c[w][h] == a[w][h] + b[w][h]
    ensures SumMatrix(c) == SumMatrix(a) + SumMatrix(b)
  {
    var ra, rb, rc := RowSums(a), RowSums(b), RowSums(c);
    forall w | 0 <= w < width
      ensures rc[w] == ra[w] + rb[w]
    {
      SumSeqAdd(a[w], b[w], c[w]);
    }
    SumSeqAdd(ra, rb, rc);
  }

  /** An all-zero matrix sums to 0. */
  lemma SumMatrixZero(m: Matrix, width: nat, height: nat)
    requires IsShape(m, width, height)
    requires forall w, h :: 0 <= w < width && 0 <= h < height ==> m[w][h] == 0.0
    ensures SumMatrix(m) == 0.0
  {
    SumMatrixScale(m, m, 0.0, width, height);
  }

  lemma SumMatrixNonNegative(m: Matrix)
    requires NonNegative(m)
    ensures SumMatrix(m) >= 0.0
  {
    forall w | 0 <= w < |m| ensures RowSums(m)[w] >= 0.0 {
      SumSeqNonNegative(m[w]);
    }
    SumSeqNonNegative(RowSums(m));
  }

  /** A non-negative matrix sums to 0 exactly when it is all-zero. */
  lemma SumMatrixZeroIff(m: Matrix)
    requires NonNegative(m)
    ensures SumMatrix(m) == 0.0 <==> forall w, h :: 0 <= w < |m| && 0 <= h < |m[w]| ==> m[w][h] == 0.0
  {
    forall w | 0 <= w < |m|
      ensures RowSums(m)[w] >= 0.0
      ensures RowSums(m)[w] == 0.0 <==> forall h :: 0 <= h < |m[w]| ==> m[w][h] == 0.0
    {
      SumSeqNonNegative(m[w]);
      SumSeqZeroIff(m[w]);
    }
    SumSeqZeroIff(RowSums(m));
  }

  lemma SumMatrixUpdate(m: Matrix, w: nat, h: nat, v: real)
    requires w < |m| && h < |m[w]|
    ensures SumMatrix(m[w := m[w][h := v]]) == SumMatrix(m) - m[w][h] + v
  {
    var m' := m[w := m[w][h := v]];
    SumSeqUpdate(m[w], h, v);
    assert RowSums(m') == RowSums(m)[w := SumSeq(m[w][h := v])];
    SumSeqUpdate(RowSums(m), w, SumSeq(m[w][h := v]));
  }

  /** A matrix that is zero everywhere but at `(w, h)` sums to its entry there. */
  lemma SumMatrixSingle(m: Matrix, w: nat, h: nat, width: nat, height: nat)
    requires IsShape(m, width, height) && w < width && h < height
    requires forall k, l :: 0 <= k < width && 0 <= l < height && (k != w || l != h) ==> m[k][l] == 0.0
    ensures SumMatrix(m) == m[w][h]
  {
    var z := m[w := m[w][h := 0.0]];
    SumMatrixUpdate(m, w, h, 0.0);
    SumMatrixZero(z, width, height);
  }

  predicate Distinct<T(==)>(cs: seq<T>) {
    forall i, j :: 0 <= i < j < |cs| ==> cs[i] != cs[j]
  }

  /**
   * A matrix that is zero outside the distinct cells `cs` sums to the sum of
   * its entries at those cells, listed in `terms`.
   */
  lemma {:induction false} SumMatrixSparse(m: Matrix, cs: seq<(int, int)>, terms: seq<real>, width: nat, height: nat)
    requires IsShape(m, width, height) && Distinct(cs)
    requires forall i :: 0 <= i < |cs| ==> 0 <= cs[i].0 < width && 0 <= cs[i].1 < height
    requires forall w, h :: 0 <= w < width && 0 <= h < height && (w, h) !in cs ==> m[w][h] == 0.0
    requires |terms| == |cs| && forall i :: 0 <= i < |cs| ==> terms[i] == m[cs[i].0][cs[i].1]
    ensures SumMatrix(m) == SumSeq(terms)
    decreases |cs|
  {
    if |cs| == 0 {
      SumMatrixZero(m, width, height);
    } else {
      var n := |cs| - 1;
      var c := cs[n];
      var m' := m[c.0 := m[c.0][c.1 := 0.0]];
      forall w, h | 0 <= w < width && 0 <= h < height && (w, h) !in cs[..n]
        ensures m'[w][h] == 0.0
      {
        if (w, h) != c {
          assert (w, h) !in cs by {
            forall i | 0 <= i < |cs| ensures cs[i] != (w, h) {
              if i < n { assert cs[..n][i] == cs[i]; }
            }
          }
        }
      }
      forall i | 0 <= i < n ensures terms[..n][i] == m'[cs[..n][i].0][cs[..n][i].1] {
        assert cs[i] != c;
      }
      SumMatrixSparse(m', cs[..n], terms[..n], width, height);
      SumMatrixUpdate(m, c.0, c.1, 0.0);
    }
  }

  lemma PointwiseTotalLast(ms: seq<Matrix>, width: nat, height: nat, w: nat, h: nat)
    requires |ms| > 0 && w < width && h < height
    requires forall i :: 0 <= i < |ms| ==> IsShape(ms[i], width, height)
    ensures PointwiseTotal(ms, width, height)[w][h]
         == PointwiseTotal(ms[..|ms| - 1], width, height)[w][h] + ms[|ms| - 1][w][h]
  {
    var n := |ms| - 1;
    var col := seq(|ms|, i requires 0 <= i < |ms| => ms[i][w][h]);
    assert PointwiseTotal(ms, width, height)[w][h] == SumSeq(col);
    assert col[..n] == seq(n, i requires 0 <= i < n => ms[..n][i][w][h]);
  }

  /** Adding up the sums of several matrices is summing their pointwise total. */
  lemma {:induction false} SumOfSums(ms: seq<Matrix>, width: nat, height: nat)
    requires forall i :: 0 <= i < |ms| ==> IsShape(ms[i], width, height)
    ensures SumSeq(seq(|ms|, i requires 0 <= i < |ms| => SumMatrix(ms[i]))) == SumMatrix(PointwiseTotal(ms, width, height))
  {
    var sums := seq(|ms|, i requires 0 <= i < |ms| => SumMatrix(ms[i]));
    var total := PointwiseTotal(ms, width, height);
    if |ms| == 0 {
      SumMatrixZero(total, width, height);
    } else {
      var n := |ms| - 1;
      var rest := PointwiseTotal(ms[..n], width, height);
      SumOfSums(ms[..n], width, height);
      assert sums[..n] == seq(n, i requires 0 <= i < n => SumMatrix(ms[..n][i]));
      forall w, h | 0 <= w < width && 0 <= h < height
        ensures total[w][h] == rest[w][h] + ms[n][w][h]
      {
        PointwiseTotalLast(ms, width, height, w, h);
      }
      SumMatrixAdd(rest, ms[n], total, width, height);
    }
  }

  /** The total weight each destination `(k, l)` receives. */
  function Marginal(t: Tensor, width: nat, height: nat): (r: Matrix)
    requires IsTensor(t, width, height)
    ensures IsShape(r, width, height)
  {
    seq(width, k requires 0 <= k < width => seq(height, l requires 0 <= l < height => SumMatrix(t[k][l])))
  }

  /** The total weight each source `(w, h)` sends. */
  function SourceTotals(t: Tensor, width: nat, height: nat): (r: Matrix)
    requires IsTensor(t, width, height)
    ensures IsShape(r, width, height)
  {
    seq(width, w requires 0 <= w < width => seq(height, h requires 0 <= h < height => SumMatrix(Column(t, width, height, w, h))))
  }

  function DestinationRows(t: Tensor, width: nat, height: nat): (d: seq<Matrix>)
    requires IsTensor(t, width, height)
    ensures |d| == width && forall k :: 0 <= k < width ==> IsShape(d[k], width, height)
  {
    seq(width, k requires 0 <= k < width => PointwiseTotal(t[k], width, height))
  }

  lemma MarginalRow(t: Tensor, width: nat, height: nat, k: nat)
    requires IsTensor(t, width, height) && k < width
    ensures RowSums(Marginal(t, width, height))[k] == SumMatrix(DestinationRows(t, width, height)[k])
  {
    SumOfSums(t[k], width, height);
    assert Marginal(t, width, height)[k] == seq(|t[k]|, l requires 0 <= l < |t[k]| => SumMatrix(t[k][l]));
  }

  lemma SourceTotalAt(t: Tensor, width: nat, height: nat, w: nat, h: nat)
    requires IsTensor(t, width, height) && w < width && h < height
    ensures PointwiseTotal(DestinationRows(t, width, height), width, height)[w][h] == SourceTotals(t, width, height)[w][h]
  {
    var d := DestinationRows(t, width, height);
    var c := Column(t, width, height, w, h);
    assert PointwiseTotal(d, width, height)[w][h] == SumSeq(seq(|d|, k requires 0 <= k < |d| => d[k][w][h]));
    assert SourceTotals(t, width, height)[w][h] == SumSeq(RowSums(c));
    assert RowSums(c) == seq(|d|, k requires 0 <= k < |d| => d[k][w][h]) by {
      forall k | 0 <= k < width ensures RowSums(c)[k] == d[k][w][h] {
        assert c[k] == seq(|t[k]|, l requires 0 <= l < |t[k]| => t[k][l][w][h]);
      }
    }
  }

  lemma MarginalTotal(t: Tensor, width: nat, height: nat)
    requires IsTensor(t, width, height)
    ensures SumMatrix(Marginal(t, width, height))
         == SumMatrix(PointwiseTotal(DestinationRows(t, width, height), width, height))
  {
    var rows := RowSums(Marginal(t, width, height));
    var d := DestinationRows(t, width, height);
    var sums := seq(|d|, k requires 0 <= k < |d| => SumMatrix(d[k]));
    assert rows == sums by {
      forall k | 0 <= k < width ensures rows[k] == sums[k] {
        MarginalRow(t, width, height, k);
      }
    }
    SumOfSums(d, width, height);
  }

  /**
   * The grand total of a tensor is the same whether it is added up
   * destination by destination or source by source.
   */
  lemma SumTensorBySource(t: Tensor, width: nat, height: nat)
    requires IsTensor(t, width, height)
    ensures SumMatrix(Marginal(t, width, height)) == SumMatrix(SourceTotals(t, width, height))
  {
    MarginalTotal(t, width, height);
    var total := PointwiseTotal(DestinationRows(t, width, height), width, height);
    var bySource := SourceTotals(t, width, height);
    forall w | 0 <= w < width ensures bySource[w] == total[w] {
      forall h | 0 <= h < height ensures bySource[w][h] == total[w][h] {
        SourceTotalAt(t, width, height, w, h);
      }
    }
    assert bySource == total;
  }
}
