/**
  The ratio metrics the dashboard computes over tail windows of its quote
  history: Information Ratio, Market Pressure, Adverse Selection, Sharpe and
  the tuple of "tech" metrics. Each one falls back to a fixed default below a
  minimum number of samples, and each division is guarded exactly as in the
  dashboard. Math.Sqrt is the parameter `sqrt` (see Stats.IsSqrt).
*/
module WindowMetrics {
  import opened Quotes
  import opened Stats

  // ---- projections of a window ----

  function Mids(w: seq<Quote>): seq<real> {
    seq(|w|, i requires 0 <= i < |w| => w[i].mid)
  }

  function Pnls(w: seq<Quote>): seq<real> {
    seq(|w|, i requires 0 <= i < |w| => w[i].pnl)
  }

  function MarketBids(w: seq<Quote>): seq<real> {
    seq(|w|, i requires 0 <= i < |w| => w[i].marketBid)
  }

  function MarketAsks(w: seq<Quote>): seq<real> {
    seq(|w|, i requires 0 <= i < |w| => w[i].marketAsk)
  }

  function Spreads(w: seq<Quote>): seq<real> {
    seq(|w|, i requires 0 <= i < |w| => w[i].spread)
  }

  /** Ask - Bid of each of our own quotes. */
  function QuotedSpreads(w: seq<Quote>): seq<real> {
    seq(|w|, i requires 0 <= i < |w| => w[i].ask - w[i].bid)
  }

  function AbsReal(x: real): real {
    if x < 0.0 then -x else x
  }

  /** The simple return of the mid price from each quote to the next. */
  function Returns(w: seq<Quote>): (r: seq<real>)
    requires MidsPositive(w)
    ensures |r| == if w == [] then 0 else |w| - 1
  {
    seq(if w == [] then 0 else |w| - 1,
        i requires 0 <= i < |w| - 1 => (w[i + 1].mid - w[i].mid) / w[i].mid)
  }

  /** Compounding each return onto its starting mid gives back the next mid. */
  lemma ReturnsCompound(w: seq<Quote>, i: nat)
    requires MidsPositive(w) && i + 1 < |w|
    ensures |Returns(w)| == |w| - 1
    ensures w[i].mid * (1.0 + Returns(w)[i]) == w[i + 1].mid
  {
    DivCancel(w[i].mid, w[i + 1].mid - w[i].mid);
  }

  /** A return is positive, zero or negative exactly as the mid rises, stays or falls. */
  lemma ReturnSign(w: seq<Quote>, i: nat)
    requires MidsPositive(w) && i + 1 < |w|
    ensures Returns(w)[i] > 0.0 <==> w[i + 1].mid > w[i].mid
    ensures Returns(w)[i] < 0.0 <==> w[i + 1].mid < w[i].mid
  {
    DivSign(w[i + 1].mid - w[i].mid, w[i].mid);
  }

  /** Returns do not depend on the price level: rescaling every mid by c > 0 leaves them unchanged. */
  lemma ReturnsScaleInvariant(w: seq<Quote>, v: seq<Quote>, c: real)
    requires MidsPositive(w) && c > 0.0 && |v| == |w|
    requires forall i :: 0 <= i < |w| ==> v[i].mid == c * w[i].mid
    ensures MidsPositive(v) && Returns(v) == Returns(w)
  {
    forall i | 0 <= i < |w|
      ensures v[i].mid > 0.0
    {
      MulPositive(c, w[i].mid);
    }
    forall i | 0 <= i < |w| - 1
      ensures Returns(v)[i] == Returns(w)[i]
    {
      ScaledRatio(w[i].mid, w[i + 1].mid, c);
    }
  }

  /** Every mid equal: every return is zero. */
  lemma ReturnsOfFlat(w: seq<Quote>)
    requires MidsPositive(w)
    requires forall i :: 0 <= i < |w| ==> w[i].mid == w[0].mid
    ensures forall i :: 0 <= i < |Returns(w)| ==> Returns(w)[i] == 0.0
  {
  }

  // ---- Information Ratio ----

  /** Mean over population standard deviation, or 0 when the deviation is not positive. */
  function RiskRatio(xs: seq<real>, sqrt: real -> real): real
    requires xs != []
  {
    var sd := sqrt(PopVariance(xs));
    if sd > 0.0 then Mean(xs) / sd else 0.0
  }

  /** The risk ratio of the mid-price returns, 0 for fewer than two quotes. */
  function InformationRatio(h: seq<Quote>, sqrt: real -> real): (ir: real)
    requires MidsPositive(h)
    ensures |h| < 2 ==> ir == 0.0
  {
    if |h| < 2 then 0.0 else RiskRatio(Returns(h), sqrt)
  }

  /** The default cases: too few quotes, or returns without spread (such as a flat or steadily compounding price). */
  lemma InformationRatioDefaults(h: seq<Quote>, sqrt: real -> real)
    requires IsSqrt(sqrt) && MidsPositive(h)
    ensures |h| < 2 ==> InformationRatio(h, sqrt) == 0.0
    ensures |h| >= 2 && PopVariance(Returns(h)) == 0.0 ==> InformationRatio(h, sqrt) == 0.0
  {
    if |h| >= 2 {
      PopVarianceNonNegative(Returns(h));
      SqrtPositive(sqrt, PopVariance(Returns(h)));
    }
  }

  /** The ratio has the sign of the summed returns whenever the returns vary, and is 0 otherwise. */
  lemma InformationRatioSign(h: seq<Quote>, sqrt: real -> real)
    requires IsSqrt(sqrt) && MidsPositive(h) && |h| >= 2
    ensures var r := Returns(h);
            && (InformationRatio(h, sqrt) > 0.0 <==> PopVariance(r) > 0.0 && Sum(r) > 0.0)
            && (InformationRatio(h, sqrt) < 0.0 <==> PopVariance(r) > 0.0 && Sum(r) < 0.0)
  {
    var r := Returns(h);
    PopVarianceNonNegative(r);
    SqrtPositive(sqrt, PopVariance(r));
    var sd := sqrt(PopVariance(r));
    DivSign(Sum(r), |r| as real);
    if sd > 0.0 {
      DivSign(Mean(r), sd);
    }
  }

  /** A flat mid price gives a ratio of 0. */
  lemma InformationRatioOfFlat(h: seq<Quote>, sqrt: real -> real)
    requires IsSqrt(sqrt) && MidsPositive(h)
    requires forall i :: 0 <= i < |h| ==> h[i].mid == h[0].mid
    ensures InformationRatio(h, sqrt) == 0.0
  {
    if |h| >= 2 {
      ReturnsOfFlat(h);
      PopVarianceOfConstant(Returns(h), 0.0);
      InformationRatioDefaults(h, sqrt);
    }
  }

  /** The ratio does not depend on the price level. */
  lemma InformationRatioScaleInvariant(h: seq<Quote>, v: seq<Quote>, c: real, sqrt: real -> real)
    requires MidsPositive(h) && c > 0.0 && |v| == |h|
    requires forall i :: 0 <= i < |h| ==> v[i].mid == c * h[i].mid
    ensures MidsPositive(v) && InformationRatio(v, sqrt) == InformationRatio(h, sqrt)
  {
    ReturnsScaleInvariant(h, v, c);
  }

  // ---- Market Pressure ----

  const PressureWindow: nat := 5

  /** Average market mid-price of the last five quotes relative to their average mid, minus 1; 0 below five quotes. */
  function MarketPressure(h: seq<Quote>): (pressure: real)
    requires MidsPositive(h)
    ensures |h| < PressureWindow ==> pressure == 0.0
  {
    if |h| < PressureWindow then 0.0
    else
      var w := Tail(h, PressureWindow);
      TailMidsPositive(h, PressureWindow);
      SumPositive(Mids(w));
      (Mean(MarketBids(w)) + Mean(MarketAsks(w))) / (2.0 * Mean(Mids(w))) - 1.0
  }

  /** Pressure is positive exactly when the market's bids and asks sum above twice the mids, negative when below. */
  lemma MarketPressureSign(h: seq<Quote>)
    requires MidsPositive(h) && |h| >= PressureWindow
    ensures var w := Tail(h, PressureWindow);
            var quoted := Sum(MarketBids(w)) + Sum(MarketAsks(w));
            && (MarketPressure(h) > 0.0 <==> quoted > 2.0 * Sum(Mids(w)))
            && (MarketPressure(h) < 0.0 <==> quoted < 2.0 * Sum(Mids(w)))
  {
    var w := Tail(h, PressureWindow);
    TailMidsPositive(h, PressureWindow);
    SumPositive(Mids(w));
    var n := |w| as real;
    MeanPairRatio(Sum(MarketBids(w)), Sum(MarketAsks(w)), Sum(Mids(w)), n);
  }

  /** When each of the last five market mid-prices equals our mid, there is no pressure. */
  lemma MarketPressureBalanced(h: seq<Quote>)
    requires MidsPositive(h) && |h| >= PressureWindow
    requires forall i :: |h| - PressureWindow <= i < |h| ==> h[i].marketBid + h[i].marketAsk == 2.0 * h[i].mid
    ensures MarketPressure(h) == 0.0
  {
    var w := Tail(h, PressureWindow);
    SumPointwise(MarketBids(w), MarketAsks(w), Mids(w), 2.0);
    MarketPressureSign(h);
  }

  // ---- Adverse Selection ----

  const SelectionWindow: nat := 10

  /** Average quoted spread over average market spread, minus 1, over the last ten quotes; 0 below ten quotes or without a positive market spread. */
  function AdverseSelection(h: seq<Quote>): (signal: real)
    ensures |h| < SelectionWindow ==> signal == 0.0
    ensures |h| >= SelectionWindow && Mean(Spreads(Tail(h, SelectionWindow))) <= 0.0 ==> signal == 0.0
  {
    if |h| < SelectionWindow then 0.0
    else
      var w := Tail(h, SelectionWindow);
      var tightness := Mean(Spreads(w));
      if tightness > 0.0 then Mean(QuotedSpreads(w)) / tightness - 1.0 else 0.0
  }

  /** Positive exactly when the market spread is positive and we quote wider, negative when we quote narrower. */
  lemma AdverseSelectionSign(h: seq<Quote>)
    requires |h| >= SelectionWindow
    ensures var w := Tail(h, SelectionWindow);
            var tightness := Mean(Spreads(w));
            var quoted := Mean(QuotedSpreads(w));
            && (AdverseSelection(h) > 0.0 <==> tightness > 0.0 && quoted > tightness)
            && (AdverseSelection(h) < 0.0 <==> tightness > 0.0 && quoted < tightness)
  {
    var w := Tail(h, SelectionWindow);
    var tightness := Mean(Spreads(w));
    if tightness > 0.0 {
      RatioAgainstOne(Mean(QuotedSpreads(w)), tightness);
    }
  }

  /** Never below -1 while our own quotes are not crossed. */
  lemma AdverseSelectionAtLeastMinusOne(h: seq<Quote>)
    requires forall i :: 0 <= i < |h| ==> h[i].ask >= h[i].bid
    ensures AdverseSelection(h) >= -1.0
  {
    if |h| >= SelectionWindow {
      var w := Tail(h, SelectionWindow);
      SumNonNegative(QuotedSpreads(w));
      var tightness := Mean(Spreads(w));
      if tightness > 0.0 {
        DivSign(Sum(QuotedSpreads(w)), |w| as real);
        DivSign(Mean(QuotedSpreads(w)), tightness);
      }
    }
  }

  /** When each of our last ten quotes is exactly as wide as the market's, there is no adverse selection. */
  lemma AdverseSelectionMatched(h: seq<Quote>)
    requires |h| >= SelectionWindow
    requires forall i :: |h| - SelectionWindow <= i < |h| ==> h[i].ask - h[i].bid == h[i].spread
    ensures AdverseSelection(h) == 0.0
  {
    var w := Tail(h, SelectionWindow);
    assert QuotedSpreads(w) == Spreads(w);
  }

  // ---- Sharpe ----

  const SharpeWindow: nat := 10
  const TradingDays: real := 252.0

  /** Mean change over its population standard deviation, annualised by sqrt(252); 0 when the deviation is not positive. */
  function AnnualisedSharpe(d: seq<real>, sqrt: real -> real): real
    requires d != []
  {
    var sd := sqrt(PopVariance(d));
    if sd > 0.0 then Mean(d) / sd * sqrt(TradingDays) else 0.0
  }

  /** The annualised Sharpe ratio of the pnl changes over the last ten quotes; 0 below ten quotes. */
  function Sharpe(h: seq<Quote>, sqrt: real -> real): (sharpe: real)
    ensures |h| < SharpeWindow ==> sharpe == 0.0
  {
    if |h| < SharpeWindow then 0.0
    else
      var p := Pnls(Tail(h, SharpeWindow));
      // the window holds ten values here, so this guard never fires
      if |p| < 2 then 0.0 else AnnualisedSharpe(Diffs(p), sqrt)
  }

  /** Sharpe is positive exactly when pnl changes vary and pnl ended the window above where it began; negative when below. */
  lemma SharpeSign(h: seq<Quote>, sqrt: real -> real)
    requires IsSqrt(sqrt) && |h| >= SharpeWindow
    ensures var p := Pnls(Tail(h, SharpeWindow));
            var d := Diffs(p);
            && (Sharpe(h, sqrt) > 0.0 <==> PopVariance(d) > 0.0 && p[|p| - 1] > p[0])
            && (Sharpe(h, sqrt) < 0.0 <==> PopVariance(d) > 0.0 && p[|p| - 1] < p[0])
  {
    var p := Pnls(Tail(h, SharpeWindow));
    var d := Diffs(p);
    Telescope(p);
    PopVarianceNonNegative(d);
    SqrtPositive(sqrt, PopVariance(d));
    SqrtPositive(sqrt, TradingDays);
    DivSign(Sum(d), |d| as real);
    var sd := sqrt(PopVariance(d));
    if sd > 0.0 {
      DivSign(Mean(d), sd);
      MulSign(Mean(d) / sd, sqrt(TradingDays));
    }
  }

  /** A pnl that did not move over the window gives a Sharpe of 0. */
  lemma SharpeOfFlat(h: seq<Quote>, sqrt: real -> real)
    requires IsSqrt(sqrt) && |h| >= SharpeWindow
    requires forall i :: |h| - SharpeWindow <= i < |h| ==> h[i].pnl == h[|h| - 1].pnl
    ensures Sharpe(h, sqrt) == 0.0
  {
    var p := Pnls(Tail(h, SharpeWindow));
    var d := Diffs(p);
    assert forall i :: 0 <= i < |d| ==> d[i] == p[i + 1] - p[i];
    PopVarianceOfConstant(d, 0.0);
    SqrtPositive(sqrt, 0.0);
  }

  /** Sharpe depends on pnl changes only: shifting every pnl by the same amount leaves it unchanged. */
  lemma SharpeShiftInvariant(h: seq<Quote>, v: seq<Quote>, c: real, sqrt: real -> real)
    requires |v| == |h|
    requires forall i :: 0 <= i < |h| ==> v[i].pnl == h[i].pnl + c
    ensures Sharpe(v, sqrt) == Sharpe(h, sqrt)
  {
    if |h| >= SharpeWindow {
      var p := Pnls(Tail(h, SharpeWindow));
      var q := Pnls(Tail(v, SharpeWindow));
      assert forall i :: 0 <= i < |q| ==> q[i] == p[i] + c;
      assert forall i :: 0 <= i < |q| - 1 ==> Diffs(q)[i] == Diffs(p)[i];
      assert Diffs(q) == Diffs(p);
    }
  }

  // ---- tech metrics ----

  const TechMinimum: nat := 10
  const TechWindow: nat := 20

  datatype TechMetrics = TechMetrics(
    volatility: real,
    maxDrawdown: real,
    winRate: real,
    beta: real,
    alpha: real,
    var95: real)

  /** The tuple shown before ten quotes have been seen. */
  const DefaultTech: TechMetrics := TechMetrics(0.0, 0.0, 0.0, 1.0, 0.0, 50.0)

  /** Root mean square return, in percent, once there are two returns. */
  function Volatility(r: seq<real>, sqrt: real -> real): (v: real)
    ensures |r| <= 1 ==> v == 0.0
  {
    if |r| > 1 then sqrt(Mean(Squares(r))) * 100.0 else 0.0
  }

  /** Peak-to-trough range of the pnl as a percentage of a positive peak. */
  function MaxDrawdown(p: seq<real>): (dd: real)
    requires p != []
    ensures MaxOf(p) <= 0.0 ==> dd == 0.0
  {
    var peak := MaxOf(p);
    var trough := MinOf(p);
    if peak > 0.0 then (peak - trough) / peak * 100.0 else 0.0
  }

  /** Share of positive returns, in percent. */
  function WinRate(r: seq<real>): (rate: real)
    ensures r == [] ==> rate == 0.0
  {
    if |r| > 0 then CountPositive(r) / |r| as real * 100.0 else 0.0
  }

  function Beta(r: seq<real>): (beta: real)
    ensures |r| <= 5 ==> beta == 1.0
    ensures beta >= 0.0
  {
    if |r| > 5 then AbsReal(Mean(r)) * 10.0 else 1.0
  }

  function Alpha(r: seq<real>): (alpha: real)
    ensures |r| <= 5 ==> alpha == 0.0
  {
    if |r| > 5 then Mean(r) * 100.0 else 0.0
  }

  /** 95% value at risk from the volatility and the portfolio value at the quote's mid. */
  function ValueAtRisk(volatility: real, quote: Quote, sqrt: real -> real): real {
    volatility * 1.65 * sqrt(PortfolioValue(quote)) / 1000.0
  }

  /** The six metrics over a non-empty window, for the quote being displayed. */
  function WindowTech(w: seq<Quote>, quote: Quote, sqrt: real -> real): TechMetrics
    requires MidsPositive(w) && w != []
  {
    var r := Returns(w);
    var volatility := Volatility(r, sqrt);
    TechMetrics(volatility, MaxDrawdown(Pnls(w)), WinRate(r), Beta(r), Alpha(r), ValueAtRisk(volatility, quote, sqrt))
  }

  function Tech(h: seq<Quote>, quote: Quote, sqrt: real -> real): (t: TechMetrics)
    requires MidsPositive(h)
    ensures |h| < TechMinimum ==> t == DefaultTech
  {
    if |h| < TechMinimum then DefaultTech
    else
      TailMidsPositive(h, TechWindow);
      WindowTech(Tail(h, TechWindow), quote, sqrt)
  }

  lemma VolatilityNonNegative(r: seq<real>, sqrt: real -> real)
    requires IsSqrt(sqrt)
    ensures Volatility(r, sqrt) >= 0.0
  {
    if |r| > 1 {
      SumSquaresNonNegative(r);
      DivSign(Sum(Squares(r)), |r| as real);
    }
  }

  /** The drawdown is non-negative, zero without a positive peak, and at most 100% when the pnl never goes negative. */
  lemma MaxDrawdownBounds(p: seq<real>)
    requires p != []
    ensures MaxDrawdown(p) >= 0.0
    ensures MaxOf(p) <= 0.0 ==> MaxDrawdown(p) == 0.0
    ensures MinOf(p) >= 0.0 ==> MaxDrawdown(p) <= 100.0
  {
    var peak := MaxOf(p);
    var trough := MinOf(p);
    if peak > 0.0 {
      DivSign(peak - trough, peak);
      if trough >= 0.0 {
        DivAtMostOne(peak - trough, peak);
      }
    }
  }

  lemma WinRateBounds(r: seq<real>)
    ensures 0.0 <= WinRate(r) <= 100.0
  {
    if |r| > 0 {
      CountPositiveBounds(r);
      DivAtMostOne(CountPositive(r), |r| as real);
      DivSign(CountPositive(r), |r| as real);
    }
  }

  lemma ValueAtRiskSign(volatility: real, quote: Quote, sqrt: real -> real)
    requires IsSqrt(sqrt) && volatility >= 0.0
    requires PortfolioValue(quote) >= 0.0
    ensures ValueAtRisk(volatility, quote, sqrt) >= 0.0
  {
    MulNonNegative(volatility * 1.65, sqrt(PortfolioValue(quote)));
  }

  /** Bounds on every window: win rate is a percentage, volatility, drawdown and beta are non-negative. */
  lemma WindowTechBounds(w: seq<Quote>, quote: Quote, sqrt: real -> real)
    requires IsSqrt(sqrt) && MidsPositive(w) && w != []
    ensures var t := WindowTech(w, quote, sqrt);
            && 0.0 <= t.winRate <= 100.0
            && t.volatility >= 0.0
            && t.maxDrawdown >= 0.0
            && (MaxOf(Pnls(w)) <= 0.0 ==> t.maxDrawdown == 0.0)
            && (MinOf(Pnls(w)) >= 0.0 ==> t.maxDrawdown <= 100.0)
            && t.beta >= 0.0
            && (|w| <= 6 ==> t.beta == 1.0 && t.alpha == 0.0)
            && (PortfolioValue(quote) >= 0.0 ==> t.var95 >= 0.0)
  {
    var r := Returns(w);
    VolatilityNonNegative(r, sqrt);
    MaxDrawdownBounds(Pnls(w));
    WinRateBounds(r);
    if PortfolioValue(quote) >= 0.0 {
      ValueAtRiskSign(Volatility(r, sqrt), quote, sqrt);
    }
  }

  /** Below ten quotes the metrics are the fixed defaults; from ten on they are those of the last twenty. */
  lemma TechWindowing(h: seq<Quote>, quote: Quote, sqrt: real -> real)
    requires MidsPositive(h)
    ensures |h| < TechMinimum ==> Tech(h, quote, sqrt) == DefaultTech
    ensures |h| >= TechMinimum ==>
              MidsPositive(Tail(h, TechWindow)) &&
              Tech(h, quote, sqrt) == WindowTech(Tail(h, TechWindow), quote, sqrt)
  {
    TailMidsPositive(h, TechWindow);
  }

  /** Histories that agree on their last twenty quotes (and both hold ten or more) give the same metrics. */
  lemma TechReadsLastTwenty(h: seq<Quote>, g: seq<Quote>, quote: Quote, sqrt: real -> real)
    requires MidsPositive(h) && MidsPositive(g)
    requires |h| >= TechMinimum && |g| >= TechMinimum
    requires Tail(h, TechWindow) == Tail(g, TechWindow)
    ensures Tech(h, quote, sqrt) == Tech(g, quote, sqrt)
  {
  }

  /** From ten quotes on the window has at least nine returns, so beta and alpha always come from the mean return. */
  lemma TechBetaAlphaFromMean(h: seq<Quote>, quote: Quote, sqrt: real -> real)
    requires MidsPositive(h) && |h| >= TechMinimum
    ensures var w := Tail(h, TechWindow);
            MidsPositive(w) &&
            Tech(h, quote, sqrt).beta == AbsReal(Mean(Returns(w))) * 10.0 &&
            Tech(h, quote, sqrt).alpha == Mean(Returns(w)) * 100.0
  {
    TailMidsPositive(h, TechWindow);
  }

  /** A flat mid price over the window: no volatility, no wins, zero beta, alpha and value at risk. */
  lemma TechOfFlat(h: seq<Quote>, quote: Quote, sqrt: real -> real)
    requires IsSqrt(sqrt) && MidsPositive(h) && |h| >= TechMinimum
    requires forall i :: 0 <= i < |h| ==> h[i].mid == h[0].mid
    ensures var t := Tech(h, quote, sqrt);
            t.volatility == 0.0 && t.winRate == 0.0 && t.beta == 0.0 && t.alpha == 0.0 && t.var95 == 0.0
  {
    var w := Tail(h, TechWindow);
    TailMidsPositive(h, TechWindow);
    assert forall i :: 0 <= i < |w| ==> w[i].mid == w[0].mid;
    WindowTechOfFlat(w, quote, sqrt);
  }

  lemma WindowTechOfFlat(w: seq<Quote>, quote: Quote, sqrt: real -> real)
    requires IsSqrt(sqrt) && MidsPositive(w) && |w| > 6
    requires forall i :: 0 <= i < |w| ==> w[i].mid == w[0].mid
    ensures var t := WindowTech(w, quote, sqrt);
            t.volatility == 0.0 && t.winRate == 0.0 && t.beta == 0.0 && t.alpha == 0.0 && t.var95 == 0.0
  {
    ReturnsOfFlat(w);
    var r := Returns(w);
    SquaresOfZeros(r);
    SumConstant(r, 0.0);
    CountPositiveOfZeros(r);
    assert Mean(Squares(r)) == 0.0;
    assert Mean(r) == 0.0;
  }

  // ---- real-arithmetic helpers ----

  lemma DivSign(a: real, b: real)
    requires b > 0.0
    ensures a / b > 0.0 <==> a > 0.0
    ensures a / b < 0.0 <==> a < 0.0
    ensures a / b >= 0.0 <==> a >= 0.0
  {
  }

  lemma DivCancel(a: real, c: real)
    requires a != 0.0
    ensures a * (c / a) == c
  {
  }

  lemma DivAtMostOne(a: real, b: real)
    requires a <= b && b > 0.0
    ensures a / b <= 1.0
  {
  }

  lemma MulPositive(a: real, b: real)
    requires a > 0.0 && b > 0.0
    ensures a * b > 0.0
  {
  }

  lemma MulNonNegative(a: real, b: real)
    requires a >= 0.0 && b >= 0.0
    ensures a * b >= 0.0
  {
  }

  lemma MulSign(a: real, b: real)
    requires b > 0.0
    ensures a * b > 0.0 <==> a > 0.0
    ensures a * b < 0.0 <==> a < 0.0
  {
  }

  lemma ScaledRatio(a: real, b: real, c: real)
    requires a > 0.0 && c > 0.0
    ensures (c * b - c * a) / (c * a) == (b - a) / a
  {
  }

  lemma RatioAgainstOne(x: real, m: real)
    requires m > 0.0
    ensures x / m - 1.0 > 0.0 <==> x > m
    ensures x / m - 1.0 < 0.0 <==> x < m
  {
  }

  /** ((b/n + a/n) / (2 (m/n))) - 1 compares b + a with 2m. */
  lemma MeanPairRatio(b: real, a: real, m: real, n: real)
    requires m > 0.0 && n > 0.0
    ensures (b / n + a / n) / (2.0 * (m / n)) - 1.0 > 0.0 <==> b + a > 2.0 * m
    ensures (b / n + a / n) / (2.0 * (m / n)) - 1.0 < 0.0 <==> b + a < 2.0 * m
  {
    assert (b / n + a / n) / (2.0 * (m / n)) == (b + a) / (2.0 * m);
    RatioAgainstOne(b + a, 2.0 * m);
  }
}
