/**
 * `analyze_portfolio` (src/metrics.py): per-asset means and sample standard
 * deviations, the portfolio's daily return w . mu and volatility
 * sqrt(wT C w), the guarded Sharpe ratio, and the figures annualised with a
 * fixed 252-day year.
 *
 * Floats are exact reals; a float that pandas or numpy would leave as NaN is
 * the value `NaN` of `Num`.  numpy's square root is the parameter `sqrt`;
 * the lemmas hold for every function that meets the two laws in `IsSqrt`.
 */
module Metrics {
  import opened Wrappers
  import opened Stats

  /** The annualisation convention: 252 trading days a year. */
  const TradingDays: real := 252.0

  /** A float64 result: a real number, or NaN. */
  datatype Num = Finite(value: real) | NaN

  /** The laws of a square root on the non-negative reals. */
  ghost predicate IsSqrt(sqrt: real -> real) {
    forall x :: x >= 0.0 ==> sqrt(x) >= 0.0 && sqrt(x) * sqrt(x) == x
  }

  /** A dense frame of daily returns: one row per date, one column per asset. */
  datatype ReturnFrame = ReturnFrame(assets: seq<string>, rows: seq<seq<real>>)

  predicate Dense(f: ReturnFrame) {
    Rect(f.rows, |f.assets|)
  }

  /** numpy refuses to take the dot product of vectors of different lengths. */
  datatype AnalysisError = ShapeMismatch(assets: nat, weights: nat)

  /** The dictionary returned by `analyze_portfolio`: exactly these eight keys. */
  datatype Report = Report(
    assetMeans: map<string, Num>,
    assetVols: map<string, Num>,
    portfolioReturnDaily: Num,
    portfolioVolDaily: Num,
    portfolioSharpeDaily: Num,
    portfolioReturnAnnual: Num,
    portfolioVolAnnual: Num,
    portfolioSharpeAnnual: Num)

  // ----- Float helpers: NaN propagates -----

  function Times(a: Num, c: real): (r: Num) {
    match a
    case Finite(x) => Finite(x * c)
    case NaN => NaN
  }

  function Minus(a: Num, c: real): (r: Num) {
    match a
    case Finite(x) => Finite(x - c)
    case NaN => NaN
  }

  function SqrtOf(sqrt: real -> real, a: Num): (r: Num) {
    match a
    case Finite(x) => Finite(sqrt(x))
    case NaN => NaN
  }

  /** `a > 0` on a float: false for NaN. */
  predicate Positive(a: Num) {
    a.Finite? && a.value > 0.0
  }

  /** `num / den if den > 0 else nan`. */
  function GuardedRatio(num: Num, den: Num): (r: Num) {
    if Positive(den) then
      match num
      case Finite(x) => Finite(x / den.value)
      case NaN => NaN
    else NaN
  }

  /** `Series.to_dict()`: labels paired with values in order, so a later repeat overwrites. */
  function ToDict(keys: seq<string>, vals: seq<Num>): (r: map<string, Num>)
    requires |keys| == |vals|
  {
    if |keys| == 0 then map[]
    else ToDict(keys[..|keys| - 1], vals[..|vals| - 1])[keys[|keys| - 1] := vals[|vals| - 1]]
  }

  /** One entry per label. */
  lemma {:induction false} ToDictKeys(keys: seq<string>, vals: seq<Num>)
    requires |keys| == |vals|
    ensures ToDict(keys, vals).Keys == set k | k in keys
  {
    if |keys| > 0 {
      var n := |keys|;
      var ks := keys[..n - 1];
      ToDictKeys(ks, vals[..n - 1]);
      assert keys == ks + [keys[n - 1]];
      assert (set k | k in keys) == (set k | k in ks) + {keys[n - 1]};
    }
  }

  /** A label's entry is the value at its last occurrence. */
  lemma {:induction false} ToDictEntries(keys: seq<string>, vals: seq<Num>)
    requires |keys| == |vals|
    ensures ToDict(keys, vals).Keys == set k | k in keys
    ensures forall i :: 0 <= i < |keys| && keys[i] !in keys[i + 1..] ==> ToDict(keys, vals)[keys[i]] == vals[i]
  {
    ToDictKeys(keys, vals);
    if |keys| > 0 {
      var n := |keys|;
      var ks, vs := keys[..n - 1], vals[..n - 1];
      ToDictEntries(ks, vs);
      forall i | 0 <= i < n && keys[i] !in keys[i + 1..]
        ensures ToDict(keys, vals)[keys[i]] == vals[i]
      {
        if i < n - 1 {
          assert keys[n - 1] in keys[i + 1..];
          assert ks[i] == keys[i];
          assert ks[i + 1..] == keys[i + 1..n - 1];
          assert ToDict(ks, vs)[ks[i]] == vs[i];
        }
      }
    }
  }

  // ----- The computation -----

  /** `np.ones(n) / n`. */
  function EqualWeights(n: nat): (w: seq<real>)
    ensures |w| == n
  {
    seq(n, i requires 0 <= i < n => 1.0 / n as real)
  }

  /** The weights used: the given ones as they are, or equal weights when none are given. */
  function EffectiveWeights(n: nat, weights: Option<seq<real>>): (r: seq<real>) {
    match weights
    case None => EqualWeights(n)
    case Some(w) => w
  }

  /** `df.mean()`: NaN for a column without observations. */
  function AssetMeans(f: ReturnFrame): (r: seq<Num>)
    requires Dense(f)
    ensures |r| == |f.assets|
  {
    seq(|f.assets|, j requires 0 <= j < |f.assets| =>
      if |f.rows| > 0 then Finite(Mean(Column(f.rows, |f.assets|, j))) else NaN)
  }

  /** `df.std()` (ddof = 1): NaN for a column with fewer than two observations. */
  function AssetVols(sqrt: real -> real, f: ReturnFrame): (r: seq<Num>)
    requires Dense(f)
    ensures |r| == |f.assets|
  {
    seq(|f.assets|, j requires 0 <= j < |f.assets| =>
      if |f.rows| >= 2 then Finite(sqrt(SampleVariance(Column(f.rows, |f.assets|, j)))) else NaN)
  }

  /** `np.dot(mean_returns, weights)`; the empty dot product is 0. */
  function PortfolioReturn(f: ReturnFrame, w: seq<real>): (r: Num)
    requires Dense(f) && |w| == |f.assets|
  {
    if |f.assets| == 0 then Finite(0.0)
    else if |f.rows| == 0 then NaN
    else Finite(Dot(ColumnMeans(f.rows, |f.assets|), w))
  }

  /** `np.dot(weights.T, np.dot(covariance_matrix, weights))`. */
  function PortfolioVariance(f: ReturnFrame, w: seq<real>): (r: Num)
    requires Dense(f) && |w| == |f.assets|
  {
    if |f.assets| == 0 then Finite(0.0)
    else if |f.rows| < 2 then NaN
    else Finite(QuadraticForm(CovarianceMatrix(f.rows, |f.assets|), w))
  }

  /** `np.sqrt` of the portfolio variance. */
  function PortfolioVolatility(sqrt: real -> real, f: ReturnFrame, w: seq<real>): (r: Num)
    requires Dense(f) && |w| == |f.assets|
  {
    SqrtOf(sqrt, PortfolioVariance(f, w))
  }

  /** `(ret - rf) / vol if vol > 0 else nan`, used for the daily and the annual ratio. */
  function SharpeRatio(ret: Num, vol: Num, riskFree: real): (r: Num) {
    GuardedRatio(Minus(ret, riskFree), vol)
  }

  /** The eight figures, once the weights `w` have the right length. */
  function Summarize(sqrt: real -> real, f: ReturnFrame, w: seq<real>, riskFree: real): (r: Report)
    requires Dense(f) && |w| == |f.assets|
  {
    var ret := PortfolioReturn(f, w);
    var vol := PortfolioVolatility(sqrt, f, w);
    var annReturn := Times(ret, TradingDays);
    var annVol := Times(vol, sqrt(TradingDays));
    Report(
      ToDict(f.assets, AssetMeans(f)), ToDict(f.assets, AssetVols(sqrt, f)),
      ret, vol, SharpeRatio(ret, vol, riskFree),
      annReturn, annVol, SharpeRatio(annReturn, annVol, riskFree * TradingDays))
  }

  /** `analyze_portfolio(df, weights, risk_free_rate)`, `riskFree` being a daily rate. */
  function Analyze(sqrt: real -> real, f: ReturnFrame, weights: Option<seq<real>>, riskFree: real := 0.0)
    : (r: Result<Report, AnalysisError>)
    requires Dense(f)
    ensures r.Failure? <==> weights.Some? && |weights.value| != |f.assets|
    ensures r.Failure? ==> r.error == ShapeMismatch(|f.assets|, |weights.value|)
    ensures r.Success? ==> r.value == Summarize(sqrt, f, EffectiveWeights(|f.assets|, weights), riskFree)
  {
    var n := |f.assets|;
    var w := EffectiveWeights(n, weights);
    if |w| != n then Failure(ShapeMismatch(n, |w|))
    else Success(Summarize(sqrt, f, w, riskFree))
  }

  // ----- Properties -----

  lemma SquareCancels(z: real, q: real)
    requires z != 0.0 && q == z * z
    ensures q / z == z
  {
  }

  /** Facts about a square root that the proofs below use. */
  lemma SqrtFacts(sqrt: real -> real)
    requires IsSqrt(sqrt)
    ensures sqrt(0.0) == 0.0
    ensures sqrt(TradingDays) > 0.0 && sqrt(TradingDays) * sqrt(TradingDays) == TradingDays
  {
    var z := sqrt(0.0);
    assert z >= 0.0 && z * z == 0.0;
    if z != 0.0 {
      SquareCancels(z, z * z);
    }
    var s := sqrt(TradingDays);
    assert s >= 0.0 && s * s == TradingDays;
  }

  /** The default weights are 1/n each and add up to one. */
  lemma EqualWeightsSumToOne(n: nat)
    requires n > 0
    ensures forall i :: 0 <= i < n ==> EqualWeights(n)[i] == 1.0 / n as real
    ensures Sum(EqualWeights(n)) == 1.0
  {
    SumOfConstant(EqualWeights(n), 1.0 / n as real);
  }

  /** Omitting the weights is the same as passing the equal weights. */
  lemma OmittedWeightsAreEqualWeights(sqrt: real -> real, f: ReturnFrame, riskFree: real)
    requires Dense(f)
    ensures Analyze(sqrt, f, None, riskFree) == Analyze(sqrt, f, Some(EqualWeights(|f.assets|)), riskFree)
  {
  }

  /** The daily portfolio return is the mean of the daily returns of the weighted portfolio. */
  lemma DailyReturnIsMeanOfPortfolioSeries(f: ReturnFrame, w: seq<real>)
    requires Dense(f) && |w| == |f.assets| && |f.rows| > 0
    ensures PortfolioReturn(f, w) == Finite(Mean(RowDots(f.rows, |f.assets|, w)))
  {
    var n := |f.assets|;
    MeanOfRowDots(f.rows, n, w);
    DotCommutes(w, ColumnMeans(f.rows, n));
    if n == 0 {
      var p := RowDots(f.rows, n, w);
      SumOfConstant(p, 0.0);
    }
  }

  lemma ScaleByReciprocal(x: real, d: real)
    requires d != 0.0
    ensures x * (1.0 / d) == x / d
  {
  }

  /** With the default weights the daily return is the average of the asset means. */
  lemma DefaultReturnIsAverageOfMeans(f: ReturnFrame)
    requires Dense(f) && |f.assets| > 0 && |f.rows| > 0
    ensures PortfolioReturn(f, EqualWeights(|f.assets|))
        == Finite(Sum(ColumnMeans(f.rows, |f.assets|)) / |f.assets| as real)
  {
    var n := |f.assets|;
    var mu := ColumnMeans(f.rows, n);
    DotConstant(mu, 1.0 / n as real, EqualWeights(n));
    ScaleByReciprocal(Sum(mu), n as real);
  }

  /** Weights are used as given, never renormalised: scaling them scales the daily return. */
  lemma WeightsAreNotRenormalised(f: ReturnFrame, w: seq<real>, v: seq<real>, c: real)
    requires Dense(f) && |w| == |f.assets| && |v| == |w|
    requires forall i :: 0 <= i < |w| ==> v[i] == w[i] * c
    ensures PortfolioReturn(f, v) == Times(PortfolioReturn(f, w), c)
  {
    var n := |f.assets|;
    if n > 0 && |f.rows| > 0 {
      DotScaled(ColumnMeans(f.rows, n), w, c, v);
    }
  }

  /**
   * With at least two observations the daily volatility is a non-negative
   * number whose square is the sample variance of the portfolio's daily
   * returns: wT C w >= 0, so the square root is never taken of a negative.
   */
  lemma DailyVolatilityIsSampleStd(sqrt: real -> real, f: ReturnFrame, w: seq<real>)
    requires IsSqrt(sqrt) && Dense(f) && |w| == |f.assets| && |f.rows| >= 2
    ensures var vol := PortfolioVolatility(sqrt, f, w);
      vol.Finite? && vol.value >= 0.0
      && vol.value * vol.value == SampleVariance(RowDots(f.rows, |f.assets|, w))
  {
    var n := |f.assets|;
    QuadraticFormIsSampleVariance(f.rows, n, w);
    if n == 0 {
      SqrtFacts(sqrt);
    } else {
      QuadraticFormNonNegative(f.rows, n, w);
      var v := PortfolioVariance(f, w).value;
      assert sqrt(v) >= 0.0 && sqrt(v) * sqrt(v) == v;
    }
  }

  /** A Sharpe ratio has a value exactly when the volatility is positive and the return is a number. */
  lemma SharpeRatioGuard(ret: Num, vol: Num, riskFree: real)
    ensures SharpeRatio(ret, vol, riskFree).Finite? <==> Positive(vol) && ret.Finite?
    ensures SharpeRatio(ret, vol, riskFree).Finite? ==>
      SharpeRatio(ret, vol, riskFree).value == (ret.value - riskFree) / vol.value
  {
  }

  lemma PositiveProduct(x: real, s: real)
    requires s > 0.0
    ensures x * s > 0.0 <==> x > 0.0
  {
    if x > 0.0 {
      assert x * s > 0.0;
    } else {
      assert x * s <= 0.0;
    }
  }

  lemma RescaledRatio(ret: real, rf: real, vol: real, s: real)
    requires vol > 0.0 && s > 0.0 && s * s == TradingDays
    ensures (ret * TradingDays - rf * TradingDays) / (vol * s) == (ret - rf) / vol * s
  {
    assert ret * TradingDays - rf * TradingDays == ((ret - rf) * s) * s;
    assert vol * s != 0.0;
  }

  /**
   * Annualising multiplies the return by 252 and the volatility by sqrt(252);
   * the annual Sharpe ratio is then the daily one times sqrt(252), and one
   * has a value exactly when the other does.
   */
  lemma AnnualSharpeIsScaledDailySharpe(sqrt: real -> real, ret: Num, vol: Num, riskFree: real)
    requires IsSqrt(sqrt)
    ensures Positive(Times(vol, sqrt(TradingDays))) <==> Positive(vol)
    ensures SharpeRatio(Times(ret, TradingDays), Times(vol, sqrt(TradingDays)), riskFree * TradingDays)
        == Times(SharpeRatio(ret, vol, riskFree), sqrt(TradingDays))
  {
    SqrtFacts(sqrt);
    var s := sqrt(TradingDays);
    if vol.Finite? {
      PositiveProduct(vol.value, s);
      if vol.value > 0.0 && ret.Finite? {
        RescaledRatio(ret.value, riskFree, vol.value, s);
      }
    }
  }

  /**
   * One entry per asset column in both per-asset maps; an asset's entries
   * are its mean and its sample standard deviation (NaN without enough rows).
   */
  lemma AssetEntries(sqrt: real -> real, f: ReturnFrame, w: seq<real>, riskFree: real, j: nat)
    requires Dense(f) && |w| == |f.assets|
    requires j < |f.assets| && f.assets[j] !in f.assets[j + 1..]
    ensures var r := Summarize(sqrt, f, w, riskFree);
      && r.assetMeans.Keys == (set a | a in f.assets)
      && r.assetVols.Keys == (set a | a in f.assets)
      && r.assetMeans[f.assets[j]]
         == (if |f.rows| > 0 then Finite(Mean(Column(f.rows, |f.assets|, j))) else NaN)
      && r.assetVols[f.assets[j]]
         == (if |f.rows| >= 2 then Finite(sqrt(SampleVariance(Column(f.rows, |f.assets|, j)))) else NaN)
  {
    ToDictEntries(f.assets, AssetMeans(f));
    ToDictEntries(f.assets, AssetVols(sqrt, f));
  }

  /** With fewer than two rows no volatility and no Sharpe ratio has a value. */
  lemma TooFewObservations(sqrt: real -> real, f: ReturnFrame, w: seq<real>, riskFree: real)
    requires Dense(f) && |w| == |f.assets|
    requires |f.assets| > 0 && |f.rows| < 2
    ensures var r := Summarize(sqrt, f, w, riskFree);
      && (forall a :: a in r.assetVols ==> r.assetVols[a] == NaN)
      && r.portfolioVolDaily == NaN && r.portfolioVolAnnual == NaN
      && r.portfolioSharpeDaily == NaN && r.portfolioSharpeAnnual == NaN
      && (|f.rows| == 0 <==> r.portfolioReturnDaily == NaN)
  {
    var r := Summarize(sqrt, f, w, riskFree);
    ToDictEntries(f.assets, AssetVols(sqrt, f));
    forall a | a in r.assetVols
      ensures r.assetVols[a] == NaN
    {
      var j := LastIndexOf(f.assets, a);
      AssetEntries(sqrt, f, w, riskFree, j);
    }
  }

  /** The position of the last occurrence of `a`. */
  function LastIndexOf(xs: seq<string>, a: string): (j: nat)
    requires a in xs
    ensures j < |xs| && xs[j] == a && a !in xs[j + 1..]
  {
    if xs[|xs| - 1] == a then |xs| - 1
    else
      assert a in xs[..|xs| - 1] by {
        var k :| 0 <= k < |xs| && xs[k] == a;
        assert xs[..|xs| - 1][k] == a;
      }
      var j := LastIndexOf(xs[..|xs| - 1], a);
      assert xs[j + 1..] == xs[..|xs| - 1][j + 1..] + [xs[|xs| - 1]];
      j
  }

  /** Returns that never change give zero volatility and no Sharpe ratio. */
  lemma ConstantReturnsHaveNoSharpe(sqrt: real -> real, f: ReturnFrame, w: seq<real>, riskFree: real)
    requires IsSqrt(sqrt) && Dense(f) && |w| == |f.assets|
    requires |f.rows| >= 2 && forall t :: 0 <= t < |f.rows| ==> f.rows[t] == f.rows[0]
    ensures var r := Summarize(sqrt, f, w, riskFree);
      && r.portfolioVolDaily == Finite(0.0) && r.portfolioVolAnnual == Finite(0.0)
      && r.portfolioSharpeDaily == NaN && r.portfolioSharpeAnnual == NaN
  {
    ConstantReturnsHaveZeroVolatility(sqrt, f, w);
  }

  lemma ConstantReturnsHaveZeroVolatility(sqrt: real -> real, f: ReturnFrame, w: seq<real>)
    requires IsSqrt(sqrt) && Dense(f) && |w| == |f.assets|
    requires |f.rows| >= 2 && forall t :: 0 <= t < |f.rows| ==> f.rows[t] == f.rows[0]
    ensures PortfolioVolatility(sqrt, f, w) == Finite(0.0)
  {
    var n := |f.assets|;
    SqrtFacts(sqrt);
    if n > 0 {
      QuadraticFormIsSampleVariance(f.rows, n, w);
      ConstantPortfolioSeries(f.rows, n, w);
      ConstantSeriesHasZeroVariance(RowDots(f.rows, n, w));
    }
  }

  lemma ConstantPortfolioSeries(rows: seq<seq<real>>, n: nat, w: seq<real>)
    requires Rect(rows, n) && |w| == n && |rows| > 0
    requires forall t :: 0 <= t < |rows| ==> rows[t] == rows[0]
    ensures forall t :: 0 <= t < |rows| ==> RowDots(rows, n, w)[t] == RowDots(rows, n, w)[0]
  {
  }

  /**
   * All the weight on a single asset gives that asset's volatility: the
   * covariance matrix and the standard deviations use the same n - 1 convention.
   */
  lemma SingleAssetVolatility(sqrt: real -> real, f: ReturnFrame, riskFree: real)
    requires Dense(f) && |f.assets| == 1 && |f.rows| >= 2
    ensures var r := Summarize(sqrt, f, [1.0], riskFree);
      r.portfolioVolDaily == r.assetVols[f.assets[0]]
  {
    QuadraticFormIsSampleVariance(f.rows, 1, [1.0]);
    forall t | 0 <= t < |f.rows|
      ensures RowDots(f.rows, 1, [1.0])[t] == Column(f.rows, 1, 0)[t]
    {
      assert Dot([1.0], f.rows[t]) == f.rows[t][0];
    }
    assert RowDots(f.rows, 1, [1.0]) == Column(f.rows, 1, 0);
    AssetEntries(sqrt, f, [1.0], riskFree, 0);
    assert PortfolioVolatility(sqrt, f, [1.0]) == SqrtOf(sqrt, Finite(SampleVariance(Column(f.rows, 1, 0))));
  }
}
