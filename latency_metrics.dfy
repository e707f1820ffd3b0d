/**
  Latency bookkeeping of the trading core: a running count, sum and maximum
  for two independent streams, quote latencies and order latencies, all held
  in u64 counters. The compare-and-swap loop that raises the maximum runs here
  in a single thread, where its first exchange succeeds and it amounts to
  max(old, new). Ghost sequences record
  every sample so that the counters can be related to what was recorded.
*/
module Latency {

  const TWO_TO_64: int := 0x1_0000_0000_0000_0000

  type U64 = x: int | 0 <= x < TWO_TO_64

  /** Wrap-around of AtomicU64::fetch_add. */
  function Wrap64(x: nat): (r: U64)
    ensures (x - r) % TWO_TO_64 == 0
    ensures x < TWO_TO_64 ==> r == x
  {
    x % TWO_TO_64
  }

  lemma WrapAdd(a: nat, b: nat)
    ensures Wrap64(Wrap64(a) + b) == Wrap64(a + b)
  {
    var k := a / TWO_TO_64;
    assert a + b == (Wrap64(a) + b) + k * TWO_TO_64;
  }

  function Max(a: U64, b: U64): U64 {
    if a < b then b else a
  }

  /** Sum of the recorded samples, without wrap-around. */
  function Total(s: seq<U64>): nat {
    if s == [] then 0 else Total(s[..|s| - 1]) + s[|s| - 1]
  }

  /** The largest recorded sample, or 0 when nothing was recorded. */
  function Largest(s: seq<U64>): (m: U64)
    ensures forall i :: 0 <= i < |s| ==> s[i] <= m
    ensures s == [] ==> m == 0
    ensures s != [] ==> m in s
  {
    if s == [] then 0 else Max(Largest(s[..|s| - 1]), s[|s| - 1])
  }

  /** No counter has wrapped: the sum and the count are below 2^64. */
  predicate NoWrap(s: seq<U64>) {
    Total(s) < TWO_TO_64 && |s| < TWO_TO_64
  }

  lemma {:induction false} TotalBounded(s: seq<U64>, bound: int)
    requires forall i :: 0 <= i < |s| ==> s[i] <= bound
    ensures Total(s) <= |s| * bound
  {
    if s != [] {
      var p := s[..|s| - 1];
      assert forall i :: 0 <= i < |p| ==> p[i] == s[i];
      TotalBounded(p, bound);
      assert |s| * bound == |p| * bound + bound;
    }
  }

  /** The mean of the samples never exceeds their maximum. */
  lemma {:induction false} MeanAtMostLargest(s: seq<U64>)
    requires s != []
    ensures Total(s) as real / |s| as real <= Largest(s) as real
  {
    TotalBounded(s, Largest(s));
    var n := |s|;
    var m := Largest(s);
    assert (n * m) as real == n as real * m as real;
    DivAtMost(Total(s) as real, n as real, m as real);
  }

  lemma DivAtMost(t: real, n: real, m: real)
    requires n > 0.0 && t <= n * m
    ensures t / n <= m
  {
    assert t / n * n == t;
  }

  /** The aggregate of one stream: wrapped sum and count, and the exact maximum. */
  ghost predicate Summarises(s: seq<U64>, sum: U64, count: U64, max: U64) {
    sum == Wrap64(Total(s)) && count == Wrap64(|s|) && max == Largest(s)
  }

  lemma {:induction false} SummarisesAppend(s: seq<U64>, sum: U64, count: U64, max: U64, micros: U64)
    requires Summarises(s, sum, count, max)
    ensures Summarises(s + [micros], Wrap64(sum + micros), Wrap64(count + 1), Max(max, micros))
  {
    var s' := s + [micros];
    assert s'[..|s'| - 1] == s;
    WrapAdd(Total(s), micros);
    WrapAdd(|s|, 1);
  }

  class LatencyMetrics {
    var quoteLatencySum: U64
    var quoteCount: U64
    var maxQuoteLatency: U64
    var orderLatencySum: U64
    var orderCount: U64
    var maxOrderLatency: U64

    // every sample recorded so far, per stream
    ghost var quoteSamples: seq<U64>
    ghost var orderSamples: seq<U64>

    ghost predicate Valid()
      reads this
    {
      && Summarises(quoteSamples, quoteLatencySum, quoteCount, maxQuoteLatency)
      && Summarises(orderSamples, orderLatencySum, orderCount, maxOrderLatency)
    }

    /** new(): all six counters start at zero. */
    constructor ()
      ensures Valid() && quoteSamples == [] && orderSamples == []
      ensures quoteLatencySum == 0 && quoteCount == 0 && maxQuoteLatency == 0
      ensures orderLatencySum == 0 && orderCount == 0 && maxOrderLatency == 0
    {
      quoteLatencySum, quoteCount, maxQuoteLatency := 0, 0, 0;
      orderLatencySum, orderCount, maxOrderLatency := 0, 0, 0;
      quoteSamples, orderSamples := [], [];
    }

    method RecordQuoteLatency(micros: U64)
      requires Valid()
      modifies this
      ensures Valid()
      ensures quoteSamples == old(quoteSamples) + [micros] && orderSamples == old(orderSamples)
      ensures quoteLatencySum == Wrap64(old(quoteLatencySum) + micros)
      ensures quoteCount == Wrap64(old(quoteCount) + 1)
      ensures maxQuoteLatency == Max(old(maxQuoteLatency), micros)
      ensures orderLatencySum == old(orderLatencySum) && orderCount == old(orderCount)
      ensures maxOrderLatency == old(maxOrderLatency)
    {
      SummarisesAppend(quoteSamples, quoteLatencySum, quoteCount, maxQuoteLatency, micros);
      var sum := Wrap64(quoteLatencySum + micros);
      var count := Wrap64(quoteCount + 1);
      var currentMax := maxQuoteLatency;
      var newMax := currentMax;
      if micros > currentMax {
        // the compare_exchange_weak retry loop: with no other writer the field
        // still holds currentMax, so the first exchange stores micros
        newMax := micros;
      }
      assert newMax == Max(currentMax, micros);
      quoteLatencySum, quoteCount, maxQuoteLatency, quoteSamples := sum, count, newMax, quoteSamples + [micros];
    }

    method RecordOrderLatency(micros: U64)
      requires Valid()
      modifies this
      ensures Valid()
      ensures orderSamples == old(orderSamples) + [micros] && quoteSamples == old(quoteSamples)
      ensures orderLatencySum == Wrap64(old(orderLatencySum) + micros)
      ensures orderCount == Wrap64(old(orderCount) + 1)
      ensures maxOrderLatency == Max(old(maxOrderLatency), micros)
      ensures quoteLatencySum == old(quoteLatencySum) && quoteCount == old(quoteCount)
      ensures maxQuoteLatency == old(maxQuoteLatency)
    {
      SummarisesAppend(orderSamples, orderLatencySum, orderCount, maxOrderLatency, micros);
      var sum := Wrap64(orderLatencySum + micros);
      var count := Wrap64(orderCount + 1);
      var currentMax := maxOrderLatency;
      var newMax := currentMax;
      if micros > currentMax {
        // the compare_exchange_weak retry loop: with no other writer the field
        // still holds currentMax, so the first exchange stores micros
        newMax := micros;
      }
      assert newMax == Max(currentMax, micros);
      orderLatencySum, orderCount, maxOrderLatency, orderSamples := sum, count, newMax, orderSamples + [micros];
    }

    method AvgQuoteLatencyUs() returns (avg: real)
      requires Valid()
      ensures quoteCount == 0 ==> avg == 0.0
      ensures quoteCount > 0 ==> avg == quoteLatencySum as real / quoteCount as real
      ensures NoWrap(quoteSamples) && quoteSamples != [] ==>
                avg == Total(quoteSamples) as real / |quoteSamples| as real &&
                0.0 <= avg <= maxQuoteLatency as real
    {
      var sum := quoteLatencySum;
      var count := quoteCount;
      avg := if count > 0 then sum as real / count as real else 0.0;
      if NoWrap(quoteSamples) && quoteSamples != [] {
        MeanAtMostLargest(quoteSamples);
      }
    }

    method MaxQuoteLatencyUs() returns (m: U64)
      requires Valid()
      ensures m == maxQuoteLatency
      ensures forall i :: 0 <= i < |quoteSamples| ==> quoteSamples[i] <= m
      ensures quoteSamples == [] ==> m == 0
      ensures quoteSamples != [] ==> m in quoteSamples
    {
      m := maxQuoteLatency;
    }

    method AvgOrderLatencyUs() returns (avg: real)
      requires Valid()
      ensures orderCount == 0 ==> avg == 0.0
      ensures orderCount > 0 ==> avg == orderLatencySum as real / orderCount as real
      ensures NoWrap(orderSamples) && orderSamples != [] ==>
                avg == Total(orderSamples) as real / |orderSamples| as real &&
                0.0 <= avg <= maxOrderLatency as real
    {
      var sum := orderLatencySum;
      var count := orderCount;
      avg := if count > 0 then sum as real / count as real else 0.0;
      if NoWrap(orderSamples) && orderSamples != [] {
        MeanAtMostLargest(orderSamples);
      }
    }

    method MaxOrderLatencyUs() returns (m: U64)
      requires Valid()
      ensures m == maxOrderLatency
      ensures forall i :: 0 <= i < |orderSamples| ==> orderSamples[i] <= m
      ensures orderSamples == [] ==> m == 0
      ensures orderSamples != [] ==> m in orderSamples
    {
      m := maxOrderLatency;
    }
  }
}
