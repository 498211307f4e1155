/**
 * Statistics primitives over a dense matrix of daily returns: sums, dot
 * products, column means, sample (n - 1) variance and covariance, and the
 * quadratic form of a weight vector with a matrix.  These are the pandas
 * `mean`, `std`, `cov` and the numpy `dot` used by `analyze_portfolio`,
 * over exact reals.
 */
module Stats {

  /** Every row of `rows` has `n` entries: a dense T x n matrix. */
  predicate Rect(rows: seq<seq<real>>, n: nat) {
    forall t :: 0 <= t < |rows| ==> |rows[t]| == n
  }

  function Sum(xs: seq<real>): (r: real) {
    if |xs| == 0 then 0.0 else xs[0] + Sum(xs[1..])
  }

  /** numpy `dot` of two vectors of the same length. */
  function Dot(u: seq<real>, v: seq<real>): (r: real)
    requires |u| == |v|
  {
    if |u| == 0 then 0.0 else u[0] * v[0] + Dot(u[1..], v[1..])
  }

  function Mean(xs: seq<real>): (r: real)
    requires |xs| > 0
  {
    Sum(xs) / (|xs| as real)
  }

  /** Each observation minus the mean of the series. */
  function Deviations(xs: seq<real>): (d: seq<real>)
    requires |xs| > 0
    ensures |d| == |xs|
  {
    seq(|xs|, i requires 0 <= i < |xs| => xs[i] - Mean(xs))
  }

  /** pandas `var` with its default ddof = 1 (Bessel's correction). */
  function SampleVariance(xs: seq<real>): (r: real)
    requires |xs| >= 2
  {
    var d := Deviations(xs);
    Dot(d, d) / ((|xs| - 1) as real)
  }

  /** pandas `cov` of two aligned series, ddof = 1. */
  function SampleCovariance(xs: seq<real>, ys: seq<real>): (r: real)
    requires |xs| == |ys| >= 2
  {
    Dot(Deviations(xs), Deviations(ys)) / ((|xs| - 1) as real)
  }

  function Column(rows: seq<seq<real>>, n: nat, j: nat): (c: seq<real>)
    requires Rect(rows, n) && j < n
    ensures |c| == |rows|
  {
    seq(|rows|, t requires 0 <= t < |rows| => rows[t][j])
  }

  /** The per-column means `df.mean()`. */
  function ColumnMeans(rows: seq<seq<real>>, n: nat): (mu: seq<real>)
    requires Rect(rows, n) && |rows| > 0
    ensures |mu| == n
  {
    seq(n, j requires 0 <= j < n => Mean(Column(rows, n, j)))
  }

  /** The sample covariance matrix `df.cov()`. */
  function CovarianceMatrix(rows: seq<seq<real>>, n: nat): (m: seq<seq<real>>)
    requires Rect(rows, n) && |rows| >= 2
    ensures |m| == n && Rect(m, n)
  {
    seq(n, i requires 0 <= i < n =>
      seq(n, j requires 0 <= j < n => SampleCovariance(Column(rows, n, i), Column(rows, n, j))))
  }

  /** For each row, its dot product with `v`: with `v` the weights, the daily portfolio returns. */
  function RowDots(rows: seq<seq<real>>, n: nat, v: seq<real>): (p: seq<real>)
    requires Rect(rows, n) && |v| == n
    ensures |p| == |rows|
  {
    seq(|rows|, t requires 0 <= t < |rows| => Dot(v, rows[t]))
  }

  /** For each column, its dot product with `y` (a series over the rows). */
  function ColumnDots(rows: seq<seq<real>>, n: nat, y: seq<real>): (c: seq<real>)
    requires Rect(rows, n) && |y| == |rows|
    ensures |c| == n
  {
    seq(n, j requires 0 <= j < n => Dot(Column(rows, n, j), y))
  }

  /** numpy `dot(m, v)` for an n x n matrix. */
  function MatVec(m: seq<seq<real>>, v: seq<real>): (r: seq<real>)
    requires Rect(m, |v|)
    ensures |r| == |m|
  {
    seq(|m|, i requires 0 <= i < |m| => Dot(m[i], v))
  }

  /** `dot(v.T, dot(m, v))`. */
  function QuadraticForm(m: seq<seq<real>>, v: seq<real>): (r: real)
    requires Rect(m, |v|) && |m| == |v|
  {
    Dot(v, MatVec(m, v))
  }

  // ----- Algebra of Dot -----

  lemma {:induction false} DotCommutes(u: seq<real>, v: seq<real>)
    requires |u| == |v|
    ensures Dot(u, v) == Dot(v, u)
  {
    if |u| > 0 {
      DotCommutes(u[1..], v[1..]);
    }
  }

  /** Dot distributes over a pointwise difference in its second argument. */
  lemma {:induction false} DotSub(v: seq<real>, a: seq<real>, b: seq<real>, r: seq<real>)
    requires |v| == |a| == |b| == |r|
    requires forall i :: 0 <= i < |r| ==> r[i] == a[i] - b[i]
    ensures Dot(v, r) == Dot(v, a) - Dot(v, b)
  {
    if |v| > 0 {
      DotSub(v[1..], a[1..], b[1..], r[1..]);
      assert v[0] * r[0] == v[0] * a[0] - v[0] * b[0];
    }
  }

  /** A common factor of the second argument comes out of Dot. */
  lemma {:induction false} DotScaled(v: seq<real>, a: seq<real>, c: real, r: seq<real>)
    requires |v| == |a| == |r|
    requires forall i :: 0 <= i < |r| ==> r[i] == a[i] * c
    ensures Dot(v, r) == Dot(v, a) * c
  {
    if |v| > 0 {
      DotScaled(v[1..], a[1..], c, r[1..]);
      assert v[0] * r[0] == (v[0] * a[0]) * c;
    }
  }

  /** A common divisor of the second argument comes out of Dot. */
  lemma {:induction false} DotDivided(v: seq<real>, a: seq<real>, d: real, r: seq<real>)
    requires |v| == |a| == |r| && d != 0.0
    requires forall i :: 0 <= i < |r| ==> r[i] == a[i] / d
    ensures Dot(v, r) == Dot(v, a) / d
  {
    if |v| > 0 {
      DotDivided(v[1..], a[1..], d, r[1..]);
      assert v[0] * r[0] == (v[0] * a[0]) / d;
    }
  }

  /** Dot is linear in its second argument. */
  lemma {:induction false} DotAddScaled(v: seq<real>, a: seq<real>, c: real, b: seq<real>, r: seq<real>)
    requires |v| == |a| == |b| == |r|
    requires forall i :: 0 <= i < |r| ==> r[i] == a[i] * c + b[i]
    ensures Dot(v, r) == Dot(v, a) * c + Dot(v, b)
  {
    if |v| > 0 {
      DotAddScaled(v[1..], a[1..], c, b[1..], r[1..]);
      assert v[0] * r[0] == (v[0] * a[0]) * c + v[0] * b[0];
    }
  }

  lemma {:induction false} DotZero(v: seq<real>, z: seq<real>)
    requires |v| == |z| && forall i :: 0 <= i < |z| ==> z[i] == 0.0
    ensures Dot(v, z) == 0.0
  {
    if |v| > 0 {
      DotZero(v[1..], z[1..]);
    }
  }

  lemma {:induction false} DotSelfNonNegative(u: seq<real>)
    ensures Dot(u, u) >= 0.0
  {
    if |u| > 0 {
      DotSelfNonNegative(u[1..]);
    }
  }

  lemma {:induction false} DotOnesIsSum(xs: seq<real>, ones: seq<real>)
    requires |ones| == |xs| && forall i :: 0 <= i < |ones| ==> ones[i] == 1.0
    ensures Dot(xs, ones) == Sum(xs)
  {
    if |xs| > 0 {
      DotOnesIsSum(xs[1..], ones[1..]);
    }
  }

  lemma {:induction false} SumOfConstant(xs: seq<real>, c: real)
    requires forall i :: 0 <= i < |xs| ==> xs[i] == c
    ensures Sum(xs) == |xs| as real * c
  {
    if |xs| > 0 {
      SumOfConstant(xs[1..], c);
    }
  }

  /** A dot product against a constant vector is the sum times the constant. */
  lemma {:induction false} DotConstant(xs: seq<real>, c: real, cs: seq<real>)
    requires |cs| == |xs| && forall i :: 0 <= i < |cs| ==> cs[i] == c
    ensures Dot(xs, cs) == Sum(xs) * c
  {
    if |xs| > 0 {
      DotConstant(xs[1..], c, cs[1..]);
    }
  }

  /** A series that never moves has sample variance zero. */
  lemma ConstantSeriesHasZeroVariance(xs: seq<real>)
    requires |xs| >= 2 && forall i :: 0 <= i < |xs| ==> xs[i] == xs[0]
    ensures SampleVariance(xs) == 0.0
  {
    SumOfConstant(xs, xs[0]);
    assert Mean(xs) == xs[0];
    var d := Deviations(xs);
    DotZero(d, d);
  }

  // ----- Exchanging the two summations of a matrix -----

  /** Peeling off the first row of the column dot products. */
  lemma ColumnDotsFirstRow(rows: seq<seq<real>>, n: nat, y: seq<real>)
    requires Rect(rows, n) && |y| == |rows| > 0
    ensures forall j :: 0 <= j < n ==>
      ColumnDots(rows, n, y)[j] == rows[0][j] * y[0] + ColumnDots(rows[1..], n, y[1..])[j]
  {
    forall j | 0 <= j < n
      ensures ColumnDots(rows, n, y)[j] == rows[0][j] * y[0] + ColumnDots(rows[1..], n, y[1..])[j]
    {
      var col := Column(rows, n, j);
      assert col[1..] == Column(rows[1..], n, j);
    }
  }

  /** Dot(v, ColumnDots) after peeling off the first row. */
  lemma ColumnDotsFirstRowWeighted(rows: seq<seq<real>>, n: nat, v: seq<real>, y: seq<real>)
    requires Rect(rows, n) && |v| == n && |y| == |rows| > 0
    ensures Dot(v, ColumnDots(rows, n, y))
      == Dot(v, rows[0]) * y[0] + Dot(v, ColumnDots(rows[1..], n, y[1..]))
  {
    ColumnDotsFirstRow(rows, n, y);
    DotAddScaled(v, rows[0], y[0], ColumnDots(rows[1..], n, y[1..]), ColumnDots(rows, n, y));
  }

  /** Dot(RowDots, y) after peeling off the first row. */
  lemma RowDotsFirstRowWeighted(rows: seq<seq<real>>, n: nat, v: seq<real>, y: seq<real>)
    requires Rect(rows, n) && |v| == n && |y| == |rows| > 0
    ensures Dot(RowDots(rows, n, v), y)
      == Dot(v, rows[0]) * y[0] + Dot(RowDots(rows[1..], n, v), y[1..])
  {
    var p := RowDots(rows, n, v);
    assert p[0] == Dot(v, rows[0]);
    assert p[1..] == RowDots(rows[1..], n, v);
  }

  /**
   * Summing a weighted combination of the columns over the rows equals
   * weighting the column sums:  sum_j v_j (sum_t D_tj y_t) = sum_t (sum_j v_j D_tj) y_t.
   */
  lemma {:induction false} SwapSums(rows: seq<seq<real>>, n: nat, v: seq<real>, y: seq<real>)
    requires Rect(rows, n) && |v| == n && |y| == |rows|
    ensures Dot(v, ColumnDots(rows, n, y)) == Dot(RowDots(rows, n, v), y)
  {
    if |rows| == 0 {
      DotZero(v, ColumnDots(rows, n, y));
    } else {
      SwapSums(rows[1..], n, v, y[1..]);
      ColumnDotsFirstRowWeighted(rows, n, v, y);
      RowDotsFirstRowWeighted(rows, n, v, y);
    }
  }

  // ----- Deviations from the column means -----

  /** The matrix of deviations of each entry from its column mean. */
  function DeviationRows(rows: seq<seq<real>>, n: nat): (d: seq<seq<real>>)
    requires Rect(rows, n) && |rows| > 0
    ensures |d| == |rows| && Rect(d, n)
  {
    var mu := ColumnMeans(rows, n);
    seq(|rows|, t requires 0 <= t < |rows| =>
      seq(n, j requires 0 <= j < n => rows[t][j] - mu[j]))
  }

  lemma DeviationColumn(rows: seq<seq<real>>, n: nat, j: nat)
    requires Rect(rows, n) && |rows| > 0 && j < n
    ensures Column(DeviationRows(rows, n), n, j) == Deviations(Column(rows, n, j))
  {
  }

  function Ones(n: nat): (r: seq<real>)
    ensures |r| == n && forall i :: 0 <= i < n ==> r[i] == 1.0
  {
    seq(n, i => 1.0)
  }

  /** Each column mean is the column's dot product with the ones, divided by T. */
  lemma ColumnMeansFromSums(rows: seq<seq<real>>, n: nat)
    requires Rect(rows, n) && |rows| > 0
    ensures forall j :: 0 <= j < n ==>
      ColumnMeans(rows, n)[j] == ColumnDots(rows, n, Ones(|rows|))[j] / |rows| as real
  {
    forall j | 0 <= j < n
      ensures ColumnMeans(rows, n)[j] == ColumnDots(rows, n, Ones(|rows|))[j] / |rows| as real
    {
      DotOnesIsSum(Column(rows, n, j), Ones(|rows|));
    }
  }

  /** The mean of the weighted series is the weighted column means: mean(R w) = w . mu. */
  lemma MeanOfRowDots(rows: seq<seq<real>>, n: nat, v: seq<real>)
    requires Rect(rows, n) && |rows| > 0 && |v| == n
    ensures Mean(RowDots(rows, n, v)) == Dot(v, ColumnMeans(rows, n))
  {
    var ones := Ones(|rows|);
    var p := RowDots(rows, n, v);
    SwapSums(rows, n, v, ones);
    DotOnesIsSum(p, ones);
    ColumnMeansFromSums(rows, n);
    DotDivided(v, ColumnDots(rows, n, ones), |rows| as real, ColumnMeans(rows, n));
  }

  /** The deviations of the weighted series are the weighted deviations. */
  lemma DeviationsOfRowDots(rows: seq<seq<real>>, n: nat, v: seq<real>)
    requires Rect(rows, n) && |rows| > 0 && |v| == n
    ensures Deviations(RowDots(rows, n, v)) == RowDots(DeviationRows(rows, n), n, v)
  {
    var p := RowDots(rows, n, v);
    var d := DeviationRows(rows, n);
    var mu := ColumnMeans(rows, n);
    MeanOfRowDots(rows, n, v);
    forall t | 0 <= t < |rows|
      ensures Deviations(p)[t] == RowDots(d, n, v)[t]
    {
      DotSub(v, rows[t], mu, d[t]);
    }
  }

  // ----- The quadratic form of the sample covariance -----

  /** One entry of the sample covariance matrix, through the deviation matrix. */
  lemma CovarianceEntry(rows: seq<seq<real>>, n: nat, i: nat, j: nat)
    requires Rect(rows, n) && |rows| >= 2 && i < n && j < n
    ensures CovarianceMatrix(rows, n)[i][j]
      == ColumnDots(DeviationRows(rows, n), n, Column(DeviationRows(rows, n), n, i))[j] / (|rows| - 1) as real
  {
    var d := DeviationRows(rows, n);
    DeviationColumn(rows, n, i);
    DeviationColumn(rows, n, j);
    DotCommutes(Column(d, n, i), Column(d, n, j));
  }

  /** Row i of C w is the i-th deviation column against the weighted deviations, over T - 1. */
  lemma CovarianceTimesWeights(rows: seq<seq<real>>, n: nat, w: seq<real>, i: nat)
    requires Rect(rows, n) && |rows| >= 2 && |w| == n && i < n
    ensures MatVec(CovarianceMatrix(rows, n), w)[i]
      == Dot(Column(DeviationRows(rows, n), n, i), RowDots(DeviationRows(rows, n), n, w)) / (|rows| - 1) as real
  {
    var cov := CovarianceMatrix(rows, n);
    var d := DeviationRows(rows, n);
    var ci := Column(d, n, i);
    var cd := ColumnDots(d, n, ci);
    forall j | 0 <= j < n
      ensures cov[i][j] == cd[j] / (|rows| - 1) as real
    {
      CovarianceEntry(rows, n, i, j);
    }
    DotCommutes(cov[i], w);
    DotDivided(w, cd, (|rows| - 1) as real, cov[i]);
    SwapSums(d, n, w, ci);
    DotCommutes(RowDots(d, n, w), ci);
  }

  lemma CovarianceTimesWeightsAll(rows: seq<seq<real>>, n: nat, w: seq<real>)
    requires Rect(rows, n) && |rows| >= 2 && |w| == n
    ensures forall i :: 0 <= i < n ==>
      MatVec(CovarianceMatrix(rows, n), w)[i]
        == ColumnDots(DeviationRows(rows, n), n, RowDots(DeviationRows(rows, n), n, w))[i] / (|rows| - 1) as real
  {
    var d := DeviationRows(rows, n);
    var p := RowDots(d, n, w);
    var cdp := ColumnDots(d, n, p);
    forall i | 0 <= i < n
      ensures MatVec(CovarianceMatrix(rows, n), w)[i] == cdp[i] / (|rows| - 1) as real
    {
      CovarianceTimesWeights(rows, n, w, i);
      assert cdp[i] == Dot(Column(d, n, i), p);
    }
  }

  /**
   * For T >= 2, wT C w, with C the sample covariance matrix, equals the
   * sample variance of the weighted series `sum_i w_i r_ti`, i.e.
   * (1/(T-1)) sum_t (sum_i w_i (r_ti - mu_i))^2.
   */
  lemma QuadraticFormIsSampleVariance(rows: seq<seq<real>>, n: nat, w: seq<real>)
    requires Rect(rows, n) && |rows| >= 2 && |w| == n
    ensures QuadraticForm(CovarianceMatrix(rows, n), w) == SampleVariance(RowDots(rows, n, w))
  {
    var d := DeviationRows(rows, n);
    var p := RowDots(d, n, w);
    CovarianceTimesWeightsAll(rows, n, w);
    DotDivided(w, ColumnDots(d, n, p), (|rows| - 1) as real, MatVec(CovarianceMatrix(rows, n), w));
    SwapSums(d, n, w, p);
    DeviationsOfRowDots(rows, n, w);
  }

  lemma QuadraticFormNonNegative(rows: seq<seq<real>>, n: nat, w: seq<real>)
    requires Rect(rows, n) && |rows| >= 2 && |w| == n
    ensures QuadraticForm(CovarianceMatrix(rows, n), w) >= 0.0
  {
    QuadraticFormIsSampleVariance(rows, n, w);
    var d := Deviations(RowDots(rows, n, w));
    DotSelfNonNegative(d);
    QuotientNonNegative(Dot(d, d), (|rows| - 1) as real);
  }

  lemma QuotientNonNegative(x: real, y: real)
    requires x >= 0.0 && y > 0.0
    ensures x / y >= 0.0
  {
  }
}
