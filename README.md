# TradeChest market maker: a Dafny model of the dashboard, the poll loop and the trading core

This project models the parts of the TradeChest market maker that decide what the operator sees and how the trading core keeps its books:

- **The console dashboard** (`gui-csharp/Dashboard.cs`):
  - the history buffer of the last fifty quotes;
  - the render state machine (header block, twelve table rows, footer);
  - the metrics panel it prints: Information Ratio, market pressure, Sharpe ratio and the six "tech" metrics. The adverse-selection signal is modelled too.
- **The poll loop** (`gui-csharp/Program.cs`): one iteration of the `while (true)` body, covering:
  - the tick counter;
  - the "connecting" branch;
  - the trade message and its lifetime;
  - the one-key command dispatch.
- **The order engine** (`rust-core/src/order_engine.rs`): buys and sells that check the balance, move the two balance cells and move the `i32` inventory.
- **The latency metrics** (`rust-core/src/metrics.rs`): `u64` running sums, counts and maxima for quote and order latencies.
- **The fixed-point number** (`rust-core/src/fixed_point.rs`): `i64` with six decimal places, its four operators and its ordering.

Modelling choices:

- Prices and balances, which are `f64` in the source, are exact `real`s.
- Machine integers are written out: the `i32` inventory wraps, and so do the `u64` counters. Rust's truncating `/` is `TruncDiv`.
- `Math.Sqrt` is a parameter `sqrt`. All that is assumed of it is `IsSqrt`: a non-negative root of every non-negative number, and 0 for 0.
- What a call prints is returned as a sequence of blocks (dashboard) or actions (poll loop). Text, colours and widths are not modelled.
- Engine calls made by the poll loop are inputs of a tick: `GetQuote`, `AutoTrade` and the key read.

Files:

| file | module | models |
|---|---|---|
| `quotes.dfy` | `Quotes` | the quote record and `TakeLast` |
| `stats.dfy` | `Stats` | the LINQ aggregates (`Sum`, `Average`, `Max`, `Min`, `Count`), population variance, `Math.Sqrt` |
| `window_metrics.dfy` | `WindowMetrics` | the metric functions of the dashboard, as functions of the history |
| `dashboard.dfy` | `DashboardView` | the `Dashboard` class: history, render state, `DisplayQuote` and the metric methods with their loops |
| `poll_loop.dfy` | `PollLoop` | the `Session` class: one tick of the poll loop |
| `order_engine.dfy` | `Orders` | `OrderEngine` and the balance cells |
| `latency_metrics.dfy` | `Latency` | `LatencyMetrics` |
| `fixed_point.dfy` | `FixedPointArith` | `FixedPoint` |

## Model

| member | source | states |
|---|---|---|
| Quotes.Tail | gui-csharp/Dashboard.cs:266 | `TakeLast(n)` has `min(n, count)` elements, and they are the last ones of the sequence, in order |
| Quotes.TailMidsPositive | gui-csharp/Program.cs:22 | every window of a history of positive-mid quotes again has positive mids, so the return divisions are defined |
| Quotes.PortfolioValue | gui-csharp/Dashboard.cs:62 | USD balance plus BTC balance at the mid; the panel shows it and the value at risk takes its root (see `ValueAtRiskSign`) |
| Stats.SqrtPositive | gui-csharp/Dashboard.cs:257 | the root of a non-negative number is positive exactly when the number is, and zero exactly when it is |
| Stats.Sum | gui-csharp/Dashboard.cs:255 | LINQ `Sum()`: the sum of the elements (its properties are `SumNonNegative`, `SumPositive`, `SumConstant`, `SumPointwise` and `Telescope`) |
| Stats.Mean | gui-csharp/Dashboard.cs:255 | LINQ `Average()` of a non-empty sequence: its sum over its count (see `MeanOfConstant`) |
| Stats.Deviations | gui-csharp/Dashboard.cs:256 | each element minus the given mean |
| Stats.Squares | gui-csharp/Dashboard.cs:316 | each element squared (see `SquaresOfZeros` and `SumSquaresNonNegative`) |
| Stats.PopVariance | gui-csharp/Dashboard.cs:256 | the population variance: the mean of the squared deviations from the mean (see `PopVarianceNonNegative` and `PopVarianceOfConstant`) |
| Stats.CountPositive | gui-csharp/Dashboard.cs:325 | `Count(r => r > 0)`, the number of positive elements (see `CountPositiveBounds` and `CountPositiveOfZeros`) |
| Stats.Diffs | gui-csharp/Dashboard.cs:292-296 | the consecutive differences of n values number n - 1, or none for no values |
| Stats.CountPositiveBounds | gui-csharp/Dashboard.cs:325 | `Count(r => r > 0)` lies between 0 and the number of returns |
| Stats.MaxOf | gui-csharp/Dashboard.cs:320 | `Max()` bounds every element from above and is one of them |
| Stats.MinOf | gui-csharp/Dashboard.cs:321 | `Min()` bounds every element from below and is one of them |
| Stats.SumNonNegative | gui-csharp/Dashboard.cs:256 | a sum of non-negative terms is non-negative |
| Stats.SumPositive | gui-csharp/Dashboard.cs:269 | a non-empty sum of positive terms is positive |
| Stats.SumConstant | gui-csharp/Dashboard.cs:255 | n copies of c sum to n times c |
| Stats.SumPointwise | gui-csharp/Dashboard.cs:267-271 | `Sum` is linear: a pointwise relation `x + y == c * z` carries over to the sums |
| Stats.Telescope | gui-csharp/Dashboard.cs:292-298 | the consecutive pnl changes add up to the last pnl minus the first |
| Stats.MeanOfConstant | gui-csharp/Dashboard.cs:255 | the average of a constant sequence is that constant |
| Stats.PopVarianceNonNegative | gui-csharp/Dashboard.cs:256 | the population variance is never negative, so its root is defined |
| Stats.PopVarianceOfConstant | gui-csharp/Dashboard.cs:256 | a constant sequence has zero variance |
| Stats.SquaresOfZeros | gui-csharp/Dashboard.cs:316 | the squares of zero returns sum to zero |
| Stats.SumSquaresNonNegative | gui-csharp/Dashboard.cs:316 | the sum of squared returns is never negative |
| Stats.CountPositiveOfZeros | gui-csharp/Dashboard.cs:325 | no zero return counts as a win |
| WindowMetrics.Returns | gui-csharp/Dashboard.cs:248-253 | there is one mid-price return per consecutive pair of quotes |
| WindowMetrics.ReturnsCompound | gui-csharp/Dashboard.cs:251 | applying return i to mid i gives mid i + 1 |
| WindowMetrics.ReturnSign | gui-csharp/Dashboard.cs:251 | a return is positive (negative) exactly when the mid rose (fell) |
| WindowMetrics.ReturnsScaleInvariant | gui-csharp/Dashboard.cs:251 | multiplying every mid by the same positive factor leaves the returns unchanged |
| WindowMetrics.ReturnsOfFlat | gui-csharp/Dashboard.cs:251 | a flat mid price has only zero returns |
| WindowMetrics.RiskRatio | gui-csharp/Dashboard.cs:255-259 | the mean over the root of the population variance, or 0 when that root is not positive |
| WindowMetrics.InformationRatio | gui-csharp/Dashboard.cs:244-260 | 0 below two quotes; otherwise the mean return over the root of its population variance, or 0 when that root is not positive |
| WindowMetrics.MarketPressure | gui-csharp/Dashboard.cs:262-272 | 0 below five quotes; otherwise (average market bid + average market ask) / (2 × average mid) - 1 over the last five |
| WindowMetrics.AdverseSelection | gui-csharp/Dashboard.cs:274-283 | 0 below ten quotes, and 0 when the average spread of the last ten is not positive; otherwise average quoted ask - bid over that spread, minus 1 |
| WindowMetrics.AnnualisedSharpe | gui-csharp/Dashboard.cs:298-301 | the mean pnl change over the root of its population variance, times the root of 252; 0 when that root is not positive |
| WindowMetrics.Sharpe | gui-csharp/Dashboard.cs:285-302 | 0 below ten quotes; otherwise the annualised Sharpe ratio of the consecutive pnl changes over the last ten |
| WindowMetrics.InformationRatioDefaults | gui-csharp/Dashboard.cs:244-260 | the ratio is 0 below two quotes and when the returns have no spread |
| WindowMetrics.InformationRatioSign | gui-csharp/Dashboard.cs:255-259 | the ratio is positive (negative) exactly when the returns have spread and their sum is positive (negative) |
| WindowMetrics.InformationRatioOfFlat | gui-csharp/Dashboard.cs:244-260 | a flat mid price gives a ratio of 0 |
| WindowMetrics.InformationRatioScaleInvariant | gui-csharp/Dashboard.cs:244-260 | rescaling every mid by the same positive factor leaves the ratio unchanged |
| WindowMetrics.MarketPressureSign | gui-csharp/Dashboard.cs:262-272 | from five quotes on, the pressure is positive (negative) exactly when the summed market bids and asks exceed (fall short of) twice the summed mids of the last five |
| WindowMetrics.MarketPressureBalanced | gui-csharp/Dashboard.cs:262-272 | when bid + ask equals twice the mid on each of the last five quotes, the pressure is 0 |
| WindowMetrics.AdverseSelectionSign | gui-csharp/Dashboard.cs:274-283 | from ten quotes on, the signal is positive (negative) exactly when the average spread is positive and the quoted ask - bid exceeds (falls short of) it |
| WindowMetrics.AdverseSelectionAtLeastMinusOne | gui-csharp/Dashboard.cs:274-283 | when no quote has ask below bid, the signal is at least -1 |
| WindowMetrics.AdverseSelectionMatched | gui-csharp/Dashboard.cs:274-283 | when the quoted spread equals the spread on each of the last ten quotes, the signal is 0 |
| WindowMetrics.SharpeSign | gui-csharp/Dashboard.cs:285-302 | from ten quotes on, the ratio is positive (negative) exactly when the pnl changes vary and the last of the ten pnl values is above (below) the first |
| WindowMetrics.SharpeOfFlat | gui-csharp/Dashboard.cs:285-302 | a pnl that is constant over the last ten quotes gives a ratio of 0 |
| WindowMetrics.SharpeShiftInvariant | gui-csharp/Dashboard.cs:285-302 | adding the same amount to every pnl leaves the ratio unchanged |
| WindowMetrics.Volatility | gui-csharp/Dashboard.cs:316 | 0 up to one return; otherwise 100 times the root mean square return |
| WindowMetrics.MaxDrawdown | gui-csharp/Dashboard.cs:319-322 | 0 without a positive pnl peak; otherwise (peak - trough) / peak in percent |
| WindowMetrics.WinRate | gui-csharp/Dashboard.cs:325-326 | 0 without returns; otherwise the share of positive returns in percent |
| WindowMetrics.Beta | gui-csharp/Dashboard.cs:329 | 1 up to five returns, otherwise ten times the absolute mean return; never negative |
| WindowMetrics.Alpha | gui-csharp/Dashboard.cs:332 | 0 up to five returns, otherwise one hundred times the mean return |
| WindowMetrics.ValueAtRisk | gui-csharp/Dashboard.cs:335 | volatility × 1.65 × the root of the portfolio value at the mid, over 1000 (see `ValueAtRiskSign`) |
| WindowMetrics.WindowTech | gui-csharp/Dashboard.cs:308-337 | the six metrics over one window, for the quote displayed (see `WindowTechBounds`) |
| WindowMetrics.Tech | gui-csharp/Dashboard.cs:304-338 | the tuple `(0, 0, 0, 1, 0, 50)` below ten quotes; otherwise the window metrics of the last twenty |
| WindowMetrics.VolatilityNonNegative | gui-csharp/Dashboard.cs:316 | volatility is never negative |
| WindowMetrics.MaxDrawdownBounds | gui-csharp/Dashboard.cs:319-322 | the drawdown is non-negative, 0 without a positive peak, and at most 100% when the pnl never goes negative |
| WindowMetrics.WinRateBounds | gui-csharp/Dashboard.cs:325-326 | the win rate is a percentage between 0 and 100 |
| WindowMetrics.ValueAtRiskSign | gui-csharp/Dashboard.cs:335 | with a non-negative portfolio value, VaR 95% is non-negative |
| WindowMetrics.WindowTechBounds | gui-csharp/Dashboard.cs:308-337 | over any window: win rate in [0, 100]; volatility, drawdown and beta non-negative; beta 1 and alpha 0 up to five returns; VaR non-negative when the portfolio value is |
| WindowMetrics.TechWindowing | gui-csharp/Dashboard.cs:306-308 | below ten quotes the tuple is `(0, 0, 0, 1, 0, 50)`; from ten on it is the window metrics of the last twenty |
| WindowMetrics.TechReadsLastTwenty | gui-csharp/Dashboard.cs:308 | two histories with the same last twenty quotes give the same tech metrics |
| WindowMetrics.TechBetaAlphaFromMean | gui-csharp/Dashboard.cs:329-332 | with more than five returns, beta is ten times the absolute mean return and alpha is one hundred times the mean |
| WindowMetrics.TechOfFlat | gui-csharp/Dashboard.cs:304-338 | a flat mid price gives zero volatility, win rate, beta, alpha and VaR |
| WindowMetrics.WindowTechOfFlat | gui-csharp/Dashboard.cs:311-335 | the same for one window of more than six quotes |
| DashboardView.Appended | gui-csharp/Dashboard.cs:17-18 | the history after adding one quote: appended, then without its oldest element when it holds more than fifty (see `AppendedIsBoundedFifo`) |
| DashboardView.AppendedIsBoundedFifo | gui-csharp/Dashboard.cs:17-18 | adding a quote keeps at most fifty: the new quote last, preceded by the newest of the old ones in order |
| DashboardView.AppendedKeepsValid | gui-csharp/Dashboard.cs:17-18 | adding a positive-mid quote keeps the buffer within fifty quotes, all with positive mids |
| DashboardView.Replay | gui-csharp/Dashboard.cs:9-18 | the history after a sequence of quotes, from the empty start (see `ReplayKeepsLast`) |
| DashboardView.ReplayKeepsLast | gui-csharp/Dashboard.cs:9-18 | from the empty start, the history after any sequence of quotes is exactly their last fifty |
| DashboardView.Next | gui-csharp/Dashboard.cs:20-39 | the render state after one call: one more row, and no header and no rows after the twelfth (see `NextKeepsInvariant`) |
| DashboardView.NextKeepsInvariant | gui-csharp/Dashboard.cs:20-39 | fewer than twelve rows on the page and a header exactly when rows are shown is preserved; the row count advances modulo twelve |
| DashboardView.RenderAfter | gui-csharp/Dashboard.cs:10-39 | the render state after n calls from the start (see `RenderCycle`) |
| DashboardView.RenderCycle | gui-csharp/Dashboard.cs:10-39 | after n calls the page holds n mod 12 rows and shows a header exactly when that is not zero |
| DashboardView.ShownInformationRatio | gui-csharp/Dashboard.cs:64 | the panel shows an Information Ratio of 0 until the history holds more than ten quotes |
| DashboardView.PanelOf | gui-csharp/Dashboard.cs:60-169 | the values the panel shows for a quote over the history: portfolio value, spread edge, gated Information Ratio, market pressure, Sharpe, the tech tuple, trades and volume (see `PanelDefaults`) |
| DashboardView.PanelDefaults | gui-csharp/Dashboard.cs:60-169 | on a short history each metric shows its default, and trades and volume always show 0 |
| DashboardView.Frame | gui-csharp/Dashboard.cs:20-39 | the blocks one call prints: the header block with the panel when no header is up, the row, and the footer on the twelfth row (see `FrameShape`) |
| DashboardView.FrameShape | gui-csharp/Dashboard.cs:20-39 | every call prints exactly one row, the header block with the metrics panel exactly when no header was up, and the footer exactly on the twelfth row |
| DashboardView.HeaderAndFooterCalls | gui-csharp/Dashboard.cs:20-39 | counting calls from 1, calls 1, 13, 25, ... print the header and calls 12, 24, ... print the footer |
| DashboardView.Dashboard.constructor | gui-csharp/Dashboard.cs:9-13 | empty history, no header, no rows, zero trades and volume |
| DashboardView.Dashboard.DisplayQuote | gui-csharp/Dashboard.cs:15-40 | the history becomes the bounded append of the quote, the render state takes one step, and the blocks are the frame for the old state with the panel computed over the new history |
| DashboardView.Dashboard.Record | gui-csharp/Dashboard.cs:17-18 | append, then drop the oldest beyond fifty, keeping the buffer valid |
| DashboardView.Dashboard.Render | gui-csharp/Dashboard.cs:20-39 | header block when none is up, the row, and the footer after the twelfth row, with the render state advanced accordingly |
| DashboardView.Dashboard.PrintMetrics | gui-csharp/Dashboard.cs:60-169 | the panel values are those of `PanelOf` over the current history |
| DashboardView.Dashboard.CalculateInformationRatio | gui-csharp/Dashboard.cs:244-260 | the computed ratio equals `InformationRatio` of the history |
| DashboardView.Dashboard.CalculateSharpe | gui-csharp/Dashboard.cs:285-302 | the computed ratio equals `Sharpe` of the history |
| DashboardView.Dashboard.GetTechMetrics | gui-csharp/Dashboard.cs:304-338 | the computed tuple equals `Tech` of the history and the quote |
| DashboardView.CollectReturns | gui-csharp/Dashboard.cs:248-253 | the loop collects exactly the returns of the window |
| DashboardView.CollectDiffs | gui-csharp/Dashboard.cs:292-296 | the loop collects exactly the consecutive pnl changes |
| PollLoop.Received | gui-csharp/Program.cs:25-29 | a non-null AutoTrade result replaces the message; null keeps it |
| PollLoop.TradeLines | gui-csharp/Program.cs:33-35 | one TRADE line exactly when the message is non-empty |
| PollLoop.Cleared | gui-csharp/Program.cs:36 | the message is cleared exactly when it was shown on a tick whose number is a multiple of five |
| PollLoop.Quiet | gui-csharp/Program.cs:33-37 | the message after k valid ticks without a trade result (see `QuietRun`) |
| PollLoop.NextMultipleOfFive | gui-csharp/Program.cs:36 | the first multiple of five at or after a tick, less than five ticks away |
| PollLoop.QuietEmpty | gui-csharp/Program.cs:33-37 | an empty message stays empty |
| PollLoop.QuietRun | gui-csharp/Program.cs:33-37 | a message is kept through the valid ticks up to the next multiple of five and cleared after it, whenever it was set |
| PollLoop.MessageLifetimes | gui-csharp/Program.cs:36 | a message set on tick 3 is shown three times, one set on tick 5 only once |
| PollLoop.KeyActions | gui-csharp/Program.cs:40-70 | '1'-'3' prompt, '4' reseeds the start-up portfolio (10,000,000 USD, 100 BTC), 'i' shows the info screen, 'q' disposes, any other key does nothing |
| PollLoop.OneActionPerKey | gui-csharp/Program.cs:40-70 | one key yields at most one action, and only 'q' disposes of the engine |
| PollLoop.Startup | gui-csharp/Program.cs:8-9 | before the loop the engine is seeded with 10,000,000 USD and 100 BTC, then the market feed is started (see `ResetRepeatsStartup`) |
| PollLoop.ResetRepeatsStartup | gui-csharp/Program.cs:54-57 | a key repeats the start-up seeding of the portfolio exactly when it is '4', and no key starts the market feed again |
| PollLoop.Session.constructor | gui-csharp/Program.cs:14-15 | the counter starts at 0 and the message empty |
| PollLoop.Session.Tick | gui-csharp/Program.cs:17-79 | the counter rises by one on every tick. Without a positive mid, only the connecting line is printed: AutoTrade is not asked and nothing else changes. Otherwise AutoTrade is asked, the quote is displayed, the TRADE line follows the received message, the message is cleared on multiples of five, and the key is dispatched, with 'q' ending the loop |
| PollLoop.Session.ShowTrade | gui-csharp/Program.cs:33-37 | the TRADE line and the clearing on multiples of five |
| PollLoop.Session.HandleKey | gui-csharp/Program.cs:40-70 | the switch yields `KeyActions` of the key, and only 'q' stops the loop |
| Orders.Wrap32 | rust-core/src/order_engine.rs:23 | the `i32` fetch_add/fetch_sub result is congruent to the exact sum modulo 2^32, and equal to it when it fits |
| Orders.Buy | rust-core/src/order_engine.rs:18-31 | succeeds exactly when the USD balance covers quantity × price. On success the inventory becomes the `i32`-wrapped inventory + quantity, USD stays non-negative, BTC rises by the quantity and the worth at that price is unchanged. On failure nothing changes |
| Orders.Sell | rust-core/src/order_engine.rs:33-46 | succeeds exactly when the BTC balance covers the quantity. On success the inventory becomes the `i32`-wrapped inventory - quantity, BTC falls by the quantity (so stays non-negative), USD rises by the proceeds and the worth is unchanged. On failure nothing changes |
| Orders.BuyThenSellRestores | rust-core/src/order_engine.rs:18-46 | a successful buy followed by a sell of the same quantity at the same price restores balances and inventory, wrap-around included |
| Orders.WrapInverse | rust-core/src/order_engine.rs:23-37 | a wrapped `fetch_sub` undoes a wrapped `fetch_add` |
| Orders.OrderEngine.constructor | rust-core/src/order_engine.rs:8-12 | the inventory starts at 0 |
| Orders.OrderEngine.Inventory | rust-core/src/order_engine.rs:14-16 | returns the inventory |
| Orders.OrderEngine.ExecuteBuy | rust-core/src/order_engine.rs:18-31 | the result and the new inventory and balance cells are those of `Buy` |
| Orders.OrderEngine.ExecuteSell | rust-core/src/order_engine.rs:33-46 | the result and the new inventory and balance cells are those of `Sell` |
| Orders.OrderEngine.SetInventory | rust-core/src/order_engine.rs:48-50 | the inventory becomes the value |
| Latency.Wrap64 | rust-core/src/metrics.rs:27-28 | the `u64` fetch_add result is congruent to the exact sum modulo 2^64, and equal to it when it fits |
| Latency.WrapAdd | rust-core/src/metrics.rs:27-28 | wrapping at every step equals wrapping once at the end |
| Latency.Largest | rust-core/src/metrics.rs:30-38 | the maximum recorded sample: at least every sample, one of them, 0 when none |
| Latency.Total | rust-core/src/metrics.rs:27 | the exact sum of the recorded samples, before wrap-around (see `TotalBounded`) |
| Latency.TotalBounded | rust-core/src/metrics.rs:27 | the sum of samples is at most their count times any bound on them |
| Latency.MeanAtMostLargest | rust-core/src/metrics.rs:57-65 | the average latency never exceeds the maximum latency |
| Latency.Summarises | rust-core/src/metrics.rs:25-39 | the sum and count fields are the wrapped sum and count of the recorded samples, and the maximum field is their largest (see `SummarisesAppend`) |
| Latency.SummarisesAppend | rust-core/src/metrics.rs:25-39 | recording a sample keeps the sum, count and maximum consistent with the recorded samples |
| Latency.LatencyMetrics.constructor | rust-core/src/metrics.rs:14-23 | all six counters start at 0 |
| Latency.LatencyMetrics.RecordQuoteLatency | rust-core/src/metrics.rs:25-39 | the quote sum and count advance with wrap-around, the quote maximum becomes max(old, sample), and the order stream is untouched |
| Latency.LatencyMetrics.RecordOrderLatency | rust-core/src/metrics.rs:41-55 | the same for the order stream, leaving the quote stream untouched |
| Latency.LatencyMetrics.AvgQuoteLatencyUs | rust-core/src/metrics.rs:57-61 | 0 without samples, else sum / count; without wrap-around, the true mean, between 0 and the maximum |
| Latency.LatencyMetrics.MaxQuoteLatencyUs | rust-core/src/metrics.rs:63-65 | the largest quote latency recorded, 0 when none |
| Latency.LatencyMetrics.AvgOrderLatencyUs | rust-core/src/metrics.rs:67-71 | the same for order latencies |
| Latency.LatencyMetrics.MaxOrderLatencyUs | rust-core/src/metrics.rs:73-75 | the largest order latency recorded, 0 when none |
| FixedPointArith.TruncDiv | rust-core/src/fixed_point.rs:40-52 | Rust's `i64` division: the remainder is smaller than the divisor and takes the sign of the dividend, and the quotient is no larger than the dividend |
| FixedPointArith.TruncDivExact | rust-core/src/fixed_point.rs:40-52 | exact division returns the exact quotient |
| FixedPointArith.Zero | rust-core/src/fixed_point.rs:17-19 | zero is not positive and is below one |
| FixedPointArith.IsPositive | rust-core/src/fixed_point.rs:21-23 | the raw value is above zero (see `IsPositiveMeansAboveZero`) |
| FixedPointArith.Add | rust-core/src/fixed_point.rs:26-31 | the sum of the raw values (see `AddSubRoundTrip`, `ZeroIsIdentity` and `AddCommutes`) |
| FixedPointArith.Sub | rust-core/src/fixed_point.rs:33-38 | the difference of the raw values (see `AddSubRoundTrip`) |
| FixedPointArith.Mul | rust-core/src/fixed_point.rs:40-45 | the result is the raw product scaled down, never larger in magnitude |
| FixedPointArith.Div | rust-core/src/fixed_point.rs:47-52 | the result is the scaled dividend divided by the divisor, never larger in magnitude |
| FixedPointArith.Compare | rust-core/src/fixed_point.rs:3-4 | the derived `Ord`: the order of the raw values (see `CompareIsTotalOrder`) |
| FixedPointArith.AddSubRoundTrip | rust-core/src/fixed_point.rs:26-38 | subtracting what was added gives back the original |
| FixedPointArith.ZeroIsIdentity | rust-core/src/fixed_point.rs:17-38 | adding or subtracting zero changes nothing |
| FixedPointArith.AddCommutes | rust-core/src/fixed_point.rs:26-31 | addition is commutative |
| FixedPointArith.MulByOne | rust-core/src/fixed_point.rs:40-45 | multiplying by one (raw 1,000,000) changes nothing |
| FixedPointArith.DivByOne | rust-core/src/fixed_point.rs:47-52 | dividing by one changes nothing |
| FixedPointArith.DivUndoesExactMul | rust-core/src/fixed_point.rs:40-52 | when the product loses no digits, dividing it by the factor gives back the original |
| FixedPointArith.IsPositiveMeansAboveZero | rust-core/src/fixed_point.rs:3-23 | `is_positive` agrees with the derived ordering against zero |
| FixedPointArith.CompareIsTotalOrder | rust-core/src/fixed_point.rs:3-4 | the derived ordering is a total order: equality exactly on equal values, antisymmetric and transitive |

## Left out

- Console output is modelled as blocks and actions, without the text, colours, column widths and number formats. This includes the exposure figure `PrintMetrics` computes but whose value the panel model does not keep.
- `Thread.Sleep`, the start-up wait, and the blocking `ReadKey` of the info screen are left out. So are `Console.IsInputRedirected` and `KeyAvailable`: the key of a tick is an input, absent when no key was available.
- Engine calls are inputs of a tick: `GetQuote` and `AutoTrade`. `SetPortfolio`, `StartMarketData` and `Dispose` appear only as actions. The console lines printed at start-up are left out. The engine behind them is not part of this model: market data, the HJB optimiser, the FPGA bridge and the FFI layer in `lib.rs`.
- IEEE 754 rounding, NaN and infinities are not modelled; prices are exact reals. One consequence: for a negative portfolio value, `Math.Sqrt` returns NaN, so VaR 95% is NaN, whereas in the model it is an unconstrained real. `from_f64`, `to_f64` and the `From` conversions of `FixedPoint` are left out for the same reason.
- `Math.Sqrt` is the parameter `sqrt`; only `IsSqrt` is assumed of it.
- DashboardView.Dashboard.DisplayQuote: requires a positive mid price. The only caller (`Program.cs:22`) guarantees this, and the return computations divide by earlier mids.
- The dashboard's `GetAdverseSelection` is modelled as `WindowMetrics.AdverseSelection`, but the source never calls it from `PrintMetrics`, so no dashboard method computes it.
- `_totalTrades` and `_totalVolume` are never updated in the source. The model keeps them at 0 as an invariant.
- PollLoop.Session.Tick: `updateCount` is an unbounded integer, so the C# `int` overflow after 2^31 ticks is not modelled.
- The message-lifetime property follows the code: a message is cleared after the first valid tick whose absolute number is a multiple of five, however recently it was set. It is not kept for five display cycles. Ticks without a positive mid still advance the count.
- Latency.LatencyMetrics.RecordQuoteLatency / RecordOrderLatency: the `compare_exchange_weak` retry loop runs with a single writer, where its first exchange succeeds, so it is modelled as `max(old, sample)`. Concurrent writers, spurious failures and the relaxed memory ordering are not modelled. The `Duration` to `u64` conversion is replaced by a `u64` sample.
- Orders.OrderEngine.ExecuteBuy / ExecuteSell: the two `AtomicU64` bit cells holding `f64` balances are modelled as `Balance` objects holding reals. The relaxed atomics are modelled as sequential updates, and the two cells must be distinct objects.
- FixedPointArith.Add / Sub / Mul / Div: an `i64` overflow is excluded by a precondition. Rust panics on it in debug builds and wraps in release builds; neither is modelled. `Div` also requires a non-zero divisor, where Rust panics.
