/**
  One iteration of the console program's polling loop: count the tick, and
  either wait for a connection or record the quote, show the last trade
  message and act on at most one key. The engine calls are inputs: the
  quote it returns, the AutoTrade result (null or a message) and the key the
  operator pressed, if any. What the iteration prints or asks of the engine
  is returned as a sequence of actions.
*/
module PollLoop {
  import opened Quotes
  import opened DashboardView

  datatype Option<T> = None | Some(value: T)

  /** The inputs of one tick, as the engine and the console deliver them. */
  datatype TickInput = TickInput(quote: Quote, tradeResult: Option<string>, key: Option<char>)

  datatype Action =
    | Connecting(tick: int)
    | AutoTradeRequested
    | Display(blocks: seq<Block>)
    | TradeLine(message: string)
    | AdjustPrompt(parameter: char)
    | SetPortfolio(usd: real, btc: real)
    | StartMarketData
    | InfoScreen
    | Dispose

  /** The portfolio the program seeds at start-up, and again on key '4'. */
  const StartingUsd: real := 10_000_000.0
  const StartingBtc: real := 100.0

  /** What the program asks of the engine before the loop: seed the portfolio, then start the market feed. */
  function Startup(): seq<Action> {
    [SetPortfolio(StartingUsd, StartingBtc), StartMarketData]
  }

  // ---- the trade message ----

  /** A result from AutoTrade replaces the message; no result keeps it. */
  function Received(msg: string, result: Option<string>): (m: string)
    ensures result.None? ==> m == msg
    ensures result.Some? ==> m == result.value
  {
    match result
    case None => msg
    case Some(text) => text
  }

  /** The TRADE line, printed when there is a message. */
  function TradeLines(msg: string): (lines: seq<Action>)
    ensures |lines| <= 1
    ensures lines != [] <==> msg != ""
    ensures lines != [] ==> lines[0] == TradeLine(msg)
  {
    if msg != "" then [TradeLine(msg)] else []
  }

  /** A shown message is cleared after the ticks whose number is a multiple of five. */
  function Cleared(tick: int, msg: string): (m: string)
    ensures m == msg || m == ""
    ensures m == "" <==> msg == "" || tick % 5 == 0
  {
    if msg != "" && tick % 5 == 0 then "" else msg
  }

  /** The message after k valid ticks numbered tick, tick + 1, ... on which AutoTrade returned nothing. */
  function Quiet(tick: int, msg: string, k: nat): string
    decreases k
  {
    if k == 0 then msg else Quiet(tick + 1, Cleared(tick, msg), k - 1)
  }

  /** The first tick number, from tick on, that is a multiple of five. */
  function NextMultipleOfFive(tick: int): (n: int)
    ensures tick <= n < tick + 5 && n % 5 == 0
  {
    tick + (5 - tick % 5) % 5
  }

  lemma {:induction false} QuietEmpty(tick: int, k: nat)
    decreases k
    ensures Quiet(tick, "", k) == ""
  {
    if k > 0 {
      QuietEmpty(tick + 1, k - 1);
    }
  }

  /**
    The lifetime of a message follows the absolute tick number: a message
    present before tick `tick` survives exactly the valid ticks up to the next
    multiple of five (it is shown on that one too), however recently it was set.
  */
  lemma {:induction false} QuietRun(tick: int, msg: string, k: nat)
    decreases k
    requires msg != ""
    ensures Quiet(tick, msg, k) == if tick + k > NextMultipleOfFive(tick) then "" else msg
  {
    if k > 0 {
      if tick % 5 == 0 {
        QuietEmpty(tick + 1, k - 1);
      } else {
        assert NextMultipleOfFive(tick + 1) == NextMultipleOfFive(tick);
        QuietRun(tick + 1, msg, k - 1);
      }
    }
  }

  /** A message set on tick 3 is shown on ticks 3, 4 and 5; one set on tick 5 is shown on tick 5 only. */
  lemma MessageLifetimes()
    ensures Quiet(3, "BUY", 2) == "BUY" && Quiet(3, "BUY", 3) == ""
    ensures Quiet(5, "BUY", 1) == ""
  {
    QuietRun(3, "BUY", 2);
    QuietRun(3, "BUY", 3);
    QuietRun(5, "BUY", 1);
  }

  // ---- the keys ----

  /** What a key does: one action for the known keys, nothing for the others. */
  function KeyActions(key: Option<char>): (acts: seq<Action>)
    ensures key.None? ==> acts == []
    ensures key.Some? && key.value in {'1', '2', '3'} ==> acts == [AdjustPrompt(key.value)]
    ensures key == Some('4') ==> acts == [SetPortfolio(StartingUsd, StartingBtc)]
    ensures key == Some('i') ==> acts == [InfoScreen]
    ensures key == Some('q') ==> acts == [Dispose]
    ensures key.Some? && key.value !in {'1', '2', '3', '4', 'i', 'q'} ==> acts == []
  {
    match key
    case None => []
    case Some(c) =>
      if c == '1' || c == '2' || c == '3' then [AdjustPrompt(c)]
      else if c == '4' then [SetPortfolio(StartingUsd, StartingBtc)]
      else if c == 'i' then [InfoScreen]
      else if c == 'q' then [Dispose]
      else []
  }

  /** Any one key yields at most one action, and only 'q' disposes of the engine. */
  lemma OneActionPerKey(key: Option<char>)
    ensures |KeyActions(key)| <= 1
    ensures Dispose in KeyActions(key) <==> key == Some('q')
  {
  }

  /**
    Key '4' repeats exactly the start-up seeding of the portfolio, and no key
    starts the market feed a second time.
  */
  lemma ResetRepeatsStartup(key: Option<char>)
    ensures KeyActions(key) == Startup()[..1] <==> key == Some('4')
    ensures StartMarketData !in KeyActions(key)
  {
    assert Startup()[..1] == [SetPortfolio(StartingUsd, StartingBtc)];
  }

  class Session {
    var updateCount: int
    var lastTradeMsg: string
    /** False once 'q' has ended the loop. */
    var running: bool
    const dash: Dashboard

    ghost predicate Valid()
      reads this, dash
    {
      dash.Valid() && updateCount >= 0
    }

    /** The two locals the program sets up before the loop. */
    constructor (dash: Dashboard)
      requires dash.Valid()
      ensures Valid() && this.dash == dash
      ensures updateCount == 0 && lastTradeMsg == "" && running
    {
      updateCount := 0;
      lastTradeMsg := "";
      running := true;
      this.dash := dash;
    }

    /** One iteration of the loop body. */
    method Tick(input: TickInput) returns (out: seq<Action>)
      requires Valid() && running
      modifies this, dash
      ensures Valid()
      ensures updateCount == old(updateCount) + 1
      ensures input.quote.mid <= 0.0 ==>
                && out == [Connecting(updateCount)]
                && lastTradeMsg == old(lastTradeMsg)
                && running
                && unchanged(dash)
      ensures input.quote.mid > 0.0 ==>
                var shown := Received(old(lastTradeMsg), input.tradeResult);
                && dash.history == Appended(old(dash.history), input.quote)
                && RenderState(dash.headerPrinted, dash.rowCount) == Next(old(RenderState(dash.headerPrinted, dash.rowCount)))
                && out == [AutoTradeRequested,
                           Display(Frame(old(RenderState(dash.headerPrinted, dash.rowCount)), input.quote,
                                         PanelOf(dash.history, input.quote, dash.sqrt), updateCount))]
                          + TradeLines(shown) + KeyActions(input.key)
                && lastTradeMsg == Cleared(updateCount, shown)
                && running == (input.key != Some('q'))
    {
      updateCount := updateCount + 1;
      if input.quote.mid > 0.0 {
        // AutoTrade is asked for a decision; its result is the tick's input
        if input.tradeResult.Some? {
          lastTradeMsg := input.tradeResult.value;
        }
        var blocks := dash.DisplayQuote(input.quote, updateCount);
        var trade := ShowTrade();
        var keys := HandleKey(input.key);
        out := [AutoTradeRequested, Display(blocks)] + trade + keys;
      } else {
        out := [Connecting(updateCount)];
      }
    }

    /** Print the TRADE line when there is a message, and clear it on ticks that are multiples of five. */
    method ShowTrade() returns (lines: seq<Action>)
      modifies this
      ensures lines == TradeLines(old(lastTradeMsg))
      ensures lastTradeMsg == Cleared(updateCount, old(lastTradeMsg))
      ensures updateCount == old(updateCount) && running == old(running)
    {
      lines := [];
      if lastTradeMsg != "" {
        lines := [TradeLine(lastTradeMsg)];
        if updateCount % 5 == 0 {
          lastTradeMsg := "";
        }
      }
    }

    /** The switch on the key read this tick; 'q' ends the loop. */
    method HandleKey(key: Option<char>) returns (acts: seq<Action>)
      modifies this
      ensures acts == KeyActions(key)
      ensures running == (old(running) && key != Some('q'))
      ensures updateCount == old(updateCount) && lastTradeMsg == old(lastTradeMsg)
    {
      acts := [];
      if key.Some? {
        var c := key.value;
        if c == '1' || c == '2' || c == '3' {
          acts := [AdjustPrompt(c)];
        } else if c == '4' {
          acts := [SetPortfolio(StartingUsd, StartingBtc)];
        } else if c == 'i' {
          acts := [InfoScreen];
        } else if c == 'q' {
          acts := [Dispose];
          running := false;
        }
      }
    }
  }
}
