/**
  The console dashboard: a history of at most fifty quotes, a render state
  machine that prints a header block, twelve table rows and a footer in a
  cycle, and a metrics panel computed over the history. What is printed is
  modelled as the sequence of blocks each call emits; colours, widths and
  box-drawing text are not modelled.
*/
module DashboardView {
  import opened Quotes
  import opened Stats
  import opened WindowMetrics

  const Capacity: nat := 50
  const RowsPerPage: nat := 12
  /** The panel shows the Information Ratio only once the history holds more than this many quotes. */
  const InfoRatioMinimum: nat := 10

  // ---- the bounded history ----

  /** Add the quote at the end, then drop the oldest one when there are more than fifty. */
  function Appended(h: seq<Quote>, q: Quote): seq<Quote> {
    var g := h + [q];
    if |g| > Capacity then g[1..] else g
  }

  /** A FIFO of capacity fifty: the new quote is last, and the quotes kept are the newest of the old ones, in order. */
  lemma AppendedIsBoundedFifo(h: seq<Quote>, q: Quote)
    requires |h| <= Capacity
    ensures var r := Appended(h, q);
            && |r| == Min(|h| + 1, Capacity)
            && r[|r| - 1] == q
            && r[..|r| - 1] == h[|h| - (|r| - 1)..]
            && (|h| < Capacity ==> r == h + [q])
            && (|h| == Capacity ==> r == h[1..] + [q])
  {
  }

  lemma AppendedKeepsValid(h: seq<Quote>, q: Quote)
    requires |h| <= Capacity && MidsPositive(h) && q.mid > 0.0
    ensures |Appended(h, q)| <= Capacity && MidsPositive(Appended(h, q))
  {
  }

  /** The history after a sequence of calls, starting empty. */
  function Replay(qs: seq<Quote>): seq<Quote> {
    if qs == [] then [] else Appended(Replay(qs[..|qs| - 1]), qs[|qs| - 1])
  }

  /** Whatever was displayed, the history is exactly the last fifty quotes, oldest first. */
  lemma {:induction false} ReplayKeepsLast(qs: seq<Quote>)
    ensures Replay(qs) == Tail(qs, Capacity)
  {
    if qs != [] {
      var init := qs[..|qs| - 1];
      ReplayKeepsLast(init);
      var t := Tail(init, Capacity);
      if |init| < Capacity {
        assert t == init;
        assert init + [qs[|qs| - 1]] == qs;
      } else {
        assert t + [qs[|qs| - 1]] == qs[|qs| - Capacity - 1..];
      }
    }
  }

  // ---- the render state machine ----

  datatype RenderState = RenderState(headerPrinted: bool, rowCount: int)

  const Initial: RenderState := RenderState(false, 0)

  /** Between calls: fewer than twelve rows on the page, and a header exactly when some rows are. */
  predicate RenderInvariant(s: RenderState) {
    0 <= s.rowCount < RowsPerPage && (s.headerPrinted <==> s.rowCount > 0)
  }

  /** The state after one call: one more row, and back to the start after the twelfth. */
  function Next(s: RenderState): RenderState {
    if s.rowCount + 1 >= RowsPerPage then RenderState(false, 0) else RenderState(true, s.rowCount + 1)
  }

  lemma NextKeepsInvariant(s: RenderState)
    requires RenderInvariant(s)
    ensures RenderInvariant(Next(s))
    ensures Next(s).rowCount == (s.rowCount + 1) % RowsPerPage
  {
  }

  /** The state after n calls from the start. */
  function RenderAfter(n: nat): RenderState {
    if n == 0 then Initial else Next(RenderAfter(n - 1))
  }

  /** After n calls the page holds n mod 12 rows, and a header exactly when that is not zero. */
  lemma {:induction false} RenderCycle(n: nat)
    ensures RenderAfter(n) == RenderState(n % RowsPerPage != 0, n % RowsPerPage)
  {
    if n > 0 {
      RenderCycle(n - 1);
      if (n - 1) % RowsPerPage + 1 == RowsPerPage {
        assert n % RowsPerPage == 0;
      } else {
        assert n % RowsPerPage == (n - 1) % RowsPerPage + 1;
      }
    }
  }

  // ---- what a call prints ----

  /** The values the metrics panel shows. */
  datatype Panel = Panel(
    portfolioValue: real,
    spreadEdge: real,
    informationRatio: real,
    marketPressure: real,
    sharpe: real,
    tech: TechMetrics,
    totalTrades: int,
    totalVolume: real)

  datatype Block =
    | ClearScreen
    | Title
    | Instructions
    | MetricsPanel(quote: Quote, panel: Panel)
    | TableHeader
    | Row(quote: Quote, iteration: int)
    | TableFooter
    | Controls

  /** The Information Ratio as the panel shows it: computed only on a history of more than ten quotes. */
  function ShownInformationRatio(h: seq<Quote>, sqrt: real -> real): (ir: real)
    requires MidsPositive(h)
    ensures |h| <= InfoRatioMinimum ==> ir == 0.0
  {
    if |h| > InfoRatioMinimum then InformationRatio(h, sqrt) else 0.0
  }

  /** The panel for a quote, over the history that already includes it. */
  function PanelOf(h: seq<Quote>, quote: Quote, sqrt: real -> real): Panel
    requires MidsPositive(h)
  {
    Panel(
      PortfolioValue(quote),
      (quote.ask - quote.bid) - quote.spread,
      ShownInformationRatio(h, sqrt),
      MarketPressure(h),
      Sharpe(h, sqrt),
      Tech(h, quote, sqrt),
      0,
      0.0)
  }

  /** The panel's ratios are the plain defaults on a short history, and trades and volume always read 0. */
  lemma PanelDefaults(h: seq<Quote>, quote: Quote, sqrt: real -> real)
    requires MidsPositive(h)
    ensures var p := PanelOf(h, quote, sqrt);
            && p.totalTrades == 0 && p.totalVolume == 0.0
            && (|h| <= InfoRatioMinimum ==> p.informationRatio == 0.0)
            && (|h| < PressureWindow ==> p.marketPressure == 0.0)
            && (|h| < SharpeWindow ==> p.sharpe == 0.0)
            && (|h| < TechMinimum ==> p.tech == DefaultTech)
  {
  }

  const HeaderBlocks: seq<Block> := [ClearScreen, Title, Instructions]
  const FooterBlocks: seq<Block> := [TableFooter, Controls]

  /** The blocks one call prints from render state s. */
  function Frame(s: RenderState, quote: Quote, panel: Panel, iteration: int): seq<Block> {
    (if !s.headerPrinted then HeaderBlocks + [MetricsPanel(quote, panel), TableHeader] else [])
    + [Row(quote, iteration)]
    + (if s.rowCount + 1 >= RowsPerPage then FooterBlocks else [])
  }

  function CountRows(bs: seq<Block>): nat {
    if bs == [] then 0 else (if bs[0].Row? then 1 else 0) + CountRows(bs[1..])
  }

  lemma {:induction false} CountRowsAppend(a: seq<Block>, b: seq<Block>)
    ensures CountRows(a + b) == CountRows(a) + CountRows(b)
  {
    if a == [] {
      assert a + b == b;
    } else {
      assert (a + b)[0] == a[0];
      assert (a + b)[1..] == a[1..] + b;
      CountRowsAppend(a[1..], b);
    }
  }

  lemma {:induction false} NoRows(bs: seq<Block>)
    requires forall i :: 0 <= i < |bs| ==> !bs[i].Row?
    ensures CountRows(bs) == 0
  {
    if bs != [] {
      NoRows(bs[1..]);
    }
  }

  /** Every call prints exactly one row; the header block exactly when no header was up, the footer exactly on the twelfth row. */
  lemma FrameShape(s: RenderState, quote: Quote, panel: Panel, iteration: int)
    requires RenderInvariant(s)
    ensures var f := Frame(s, quote, panel, iteration);
            && CountRows(f) == 1
            && (f[0] == ClearScreen <==> !s.headerPrinted)
            && (MetricsPanel(quote, panel) in f <==> !s.headerPrinted)
            && (f[|f| - 1] == Controls <==> s.rowCount == RowsPerPage - 1)
  {
    var head: seq<Block> := if !s.headerPrinted then HeaderBlocks + [MetricsPanel(quote, panel), TableHeader] else [];
    var foot: seq<Block> := if s.rowCount + 1 >= RowsPerPage then FooterBlocks else [];
    var f := Frame(s, quote, panel, iteration);
    assert f == head + [Row(quote, iteration)] + foot;
    NoRows(head);
    NoRows(foot);
    assert CountRows([Row(quote, iteration)]) == 1;
    CountRowsAppend(head, [Row(quote, iteration)]);
    CountRowsAppend(head + [Row(quote, iteration)], foot);
  }

  /** Counting calls from 1: calls 1, 13, 25, ... print the header and calls 12, 24, ... print the footer. */
  lemma HeaderAndFooterCalls(k: nat, quote: Quote, panel: Panel)
    requires k >= 1
    ensures var f := Frame(RenderAfter(k - 1), quote, panel, k);
            && (f[0] == ClearScreen <==> (k - 1) % RowsPerPage == 0)
            && (f[|f| - 1] == Controls <==> k % RowsPerPage == 0)
  {
    RenderCycle(k - 1);
    var s := RenderAfter(k - 1);
    FrameShape(s, quote, panel, k);
    assert (s.rowCount == RowsPerPage - 1) <==> (k % RowsPerPage == 0);
  }

  // ---- the dashboard itself ----

  class Dashboard {
    var history: seq<Quote>
    var headerPrinted: bool
    var rowCount: int
    var totalTrades: int
    var totalVolume: real
    /** Math.Sqrt. */
    const sqrt: real -> real

    ghost predicate Valid()
      reads this
    {
      && |history| <= Capacity
      && MidsPositive(history)
      && RenderInvariant(RenderState(headerPrinted, rowCount))
      && totalTrades == 0 && totalVolume == 0.0
      && IsSqrt(sqrt)
    }

    /** The static fields' initial values. */
    constructor (sqrt: real -> real)
      requires IsSqrt(sqrt)
      ensures Valid() && this.sqrt == sqrt
      ensures history == [] && RenderState(headerPrinted, rowCount) == Initial
    {
      history := [];
      headerPrinted := false;
      rowCount := 0;
      totalTrades := 0;
      totalVolume := 0.0;
      this.sqrt := sqrt;
    }

    /** DisplayQuote: record the quote, then print the blocks of this frame. */
    method DisplayQuote(quote: Quote, iteration: int) returns (blocks: seq<Block>)
      requires Valid() && quote.mid > 0.0
      modifies this
      ensures Valid()
      ensures history == Appended(old(history), quote)
      ensures RenderState(headerPrinted, rowCount) == Next(old(RenderState(headerPrinted, rowCount)))
      ensures blocks == Frame(old(RenderState(headerPrinted, rowCount)), quote, PanelOf(history, quote, sqrt), iteration)
      ensures totalTrades == old(totalTrades) && totalVolume == old(totalVolume)
    {
      Record(quote);
      blocks := Render(quote, iteration);
    }

    /** The first two statements of DisplayQuote: append, and drop the oldest quote beyond fifty. */
    method Record(quote: Quote)
      requires Valid() && quote.mid > 0.0
      modifies this
      ensures Valid()
      ensures history == Appended(old(history), quote)
      ensures headerPrinted == old(headerPrinted) && rowCount == old(rowCount)
      ensures totalTrades == old(totalTrades) && totalVolume == old(totalVolume)
    {
      AppendedKeepsValid(history, quote);
      history := history + [quote];
      if |history| > Capacity {
        history := history[1..];
      }
    }

    /** The rest of DisplayQuote: the header block when none is up, the row, and the footer after the twelfth row. */
    method Render(quote: Quote, iteration: int) returns (blocks: seq<Block>)
      requires Valid()
      modifies this
      ensures Valid()
      ensures history == old(history)
      ensures RenderState(headerPrinted, rowCount) == Next(old(RenderState(headerPrinted, rowCount)))
      ensures blocks == Frame(old(RenderState(headerPrinted, rowCount)), quote, PanelOf(history, quote, sqrt), iteration)
      ensures totalTrades == old(totalTrades) && totalVolume == old(totalVolume)
    {
      var head: seq<Block> := [];
      if !headerPrinted {
        var panel := PrintMetrics(quote);
        head := HeaderBlocks + [MetricsPanel(quote, panel), TableHeader];
        headerPrinted := true;
      }
      var foot: seq<Block> := [];
      rowCount := rowCount + 1;
      if rowCount >= RowsPerPage {
        foot := FooterBlocks;
        headerPrinted := false;
        rowCount := 0;
      }
      blocks := head + [Row(quote, iteration)] + foot;
    }

    /** The values PrintMetrics computes and shows. */
    method PrintMetrics(quote: Quote) returns (panel: Panel)
      requires Valid()
      ensures panel == PanelOf(history, quote, sqrt)
    {
      var portfolioValue := PortfolioValue(quote);
      var informationRatio := 0.0;
      if |history| > InfoRatioMinimum {
        informationRatio := CalculateInformationRatio();
      }
      var techMetrics := GetTechMetrics(quote);
      var pressure := MarketPressure(history);
      var sharpe := CalculateSharpe();
      panel := Panel(portfolioValue, (quote.ask - quote.bid) - quote.spread, informationRatio,
                     pressure, sharpe, techMetrics, totalTrades, totalVolume);
    }

    method CalculateInformationRatio() returns (ratio: real)
      requires MidsPositive(history)
      ensures ratio == InformationRatio(history, sqrt)
    {
      if |history| < 2 {
        return 0.0;
      }
      var priceReturns := CollectReturns(history);
      var mean := Mean(priceReturns);
      var variance := PopVariance(priceReturns);
      var stdDev := sqrt(variance);
      ratio := if stdDev > 0.0 then mean / stdDev else 0.0;
    }

    method CalculateSharpe() returns (sharpe: real)
      ensures sharpe == Sharpe(history, sqrt)
    {
      if |history| < SharpeWindow {
        return 0.0;
      }
      var pnlValues := Pnls(Tail(history, SharpeWindow));
      // with ten values in the window the two-value guard cannot fire; it stays an expression
      var pnlChanges := CollectDiffs(pnlValues);
      sharpe := if |pnlValues| < 2 then 0.0 else AnnualisedSharpe(pnlChanges, sqrt);
    }

    method GetTechMetrics(quote: Quote) returns (t: TechMetrics)
      requires MidsPositive(history)
      ensures t == Tech(history, quote, sqrt)
    {
      if |history| < TechMinimum {
        return DefaultTech;
      }
      var recent := Tail(history, TechWindow);
      TailMidsPositive(history, TechWindow);
      var priceReturns := CollectReturns(recent);
      var volatility := Volatility(priceReturns, sqrt);
      var pnlValues := Pnls(recent);
      var maxDrawdown := MaxDrawdown(pnlValues);
      var winRate := WinRate(priceReturns);
      var beta := Beta(priceReturns);
      var alpha := Alpha(priceReturns);
      var var95 := ValueAtRisk(volatility, quote, sqrt);
      t := TechMetrics(volatility, maxDrawdown, winRate, beta, alpha, var95);
    }
  }

  /** The for-loop that collects the mid-price return between consecutive quotes. */
  method CollectReturns(w: seq<Quote>) returns (priceReturns: seq<real>)
    requires MidsPositive(w)
    ensures priceReturns == Returns(w)
  {
    priceReturns := [];
    var i := 1;
    while i < |w|
      invariant 1 <= i <= |w| || (w == [] && i == 1)
      invariant priceReturns == Returns(w)[..i - 1]
    {
      priceReturns := priceReturns + [(w[i].mid - w[i - 1].mid) / w[i - 1].mid];
      i := i + 1;
    }
  }

  /** The for-loop that collects the change between consecutive values. */
  method CollectDiffs(p: seq<real>) returns (diffs: seq<real>)
    ensures diffs == Diffs(p)
  {
    diffs := [];
    var i := 1;
    while i < |p|
      invariant 1 <= i <= |p| || (p == [] && i == 1)
      invariant diffs == Diffs(p)[..i - 1]
    {
      diffs := diffs + [p[i] - p[i - 1]];
      i := i + 1;
    }
  }
}
