/**
  The snapshot the dashboard receives from the trading core on every tick,
  and the tail windows the dashboard's metrics read from its history.
*/
module Quotes {

  /** One tick's snapshot. Prices and balances are f64 in the source, modelled as reals. */
  datatype Quote = Quote(
    bid: real,
    ask: real,
    mid: real,
    inventory: int,
    marketBid: real,
    marketAsk: real,
    spread: real,
    usdBalance: real,
    btcBalance: real,
    pnl: real,
    latencyUs: nat)

  /** The portfolio's value at the quote's mid price. */
  function PortfolioValue(q: Quote): real {
    q.usdBalance + q.btcBalance * q.mid
  }

  /** Every snapshot in the sequence has a positive mid price (the poll loop only records those). */
  predicate MidsPositive(h: seq<Quote>) {
    forall i :: 0 <= i < |h| ==> h[i].mid > 0.0
  }

  function Min(a: int, b: int): int {
    if a < b then a else b
  }

  /** TakeLast(n): the last min(n, |s|) elements, in their original order. */
  function Tail<T>(s: seq<T>, n: nat): (t: seq<T>)
    ensures |t| == Min(n, |s|)
    ensures forall i :: 0 <= i < |t| ==> t[i] == s[|s| - |t| + i]
  {
    if |s| <= n then s else s[|s| - n..]
  }

  lemma TailMidsPositive(h: seq<Quote>, n: nat)
    requires MidsPositive(h)
    ensures MidsPositive(Tail(h, n))
  {
  }
}
