/**
  The simulated order engine: an i32 inventory counter plus the two balance
  cells (USD and BTC) owned by the trading core and handed to each trade.
  Balances are f64 values in the source and are modelled as exact reals.
*/
module Orders {

  const I32_MIN: int := -0x8000_0000
  const I32_MAX: int := 0x7FFF_FFFF
  const TWO_TO_32: int := 0x1_0000_0000

  type I32 = x: int | I32_MIN <= x <= I32_MAX

  /** Two's-complement wrap-around, as AtomicI32::fetch_add / fetch_sub do on overflow. */
  function Wrap32(x: int): (r: I32)
    ensures (x - r) % TWO_TO_32 == 0
    ensures I32_MIN <= x <= I32_MAX ==> r == x
  {
    var m := (x - I32_MIN) % TWO_TO_32;
    assert (x - (m + I32_MIN)) == ((x - I32_MIN) / TWO_TO_32) * TWO_TO_32;
    m + I32_MIN
  }

  /** The state a trade reads and writes: inventory and the two balances. */
  datatype Ledger = Ledger(inventory: I32, usd: real, btc: real)

  /** Portfolio value at a given price. */
  function Worth(l: Ledger, price: real): real {
    l.usd + l.btc * price
  }

  datatype Trade = Trade(ok: bool, after: Ledger)

  /** execute_buy: pays quantity * price in USD for quantity BTC when the USD balance covers it. */
  function Buy(l: Ledger, quantity: I32, price: real): (t: Trade)
    ensures t.ok <==> l.usd >= quantity as real * price
    ensures !t.ok ==> t.after == l
    ensures t.ok ==> t.after.usd >= 0.0
    ensures t.ok ==> Worth(t.after, price) == Worth(l, price)
    ensures t.ok ==> t.after.btc - l.btc == quantity as real
    ensures t.ok ==> t.after.inventory == Wrap32(l.inventory + quantity)
  {
    var cost := quantity as real * price;
    if l.usd >= cost then
      Trade(true, Ledger(Wrap32(l.inventory + quantity), l.usd - cost, l.btc + quantity as real))
    else
      Trade(false, l)
  }

  /** execute_sell: gives quantity BTC for quantity * price in USD when the BTC balance covers it. */
  function Sell(l: Ledger, quantity: I32, price: real): (t: Trade)
    ensures t.ok <==> l.btc >= quantity as real
    ensures !t.ok ==> t.after == l
    ensures t.ok ==> t.after.btc >= 0.0
    ensures t.ok ==> Worth(t.after, price) == Worth(l, price)
    ensures t.ok ==> t.after.usd - l.usd == quantity as real * price
    ensures t.ok ==> t.after.btc == l.btc - quantity as real
    ensures t.ok ==> t.after.inventory == Wrap32(l.inventory - quantity)
  {
    if l.btc >= quantity as real then
      var proceeds := quantity as real * price;
      Trade(true, Ledger(Wrap32(l.inventory - quantity), l.usd + proceeds, l.btc - quantity as real))
    else
      Trade(false, l)
  }

  /** With a non-negative BTC balance, a successful buy followed by a sell of the same quantity at the same price restores the ledger. */
  lemma BuyThenSellRestores(l: Ledger, quantity: I32, price: real)
    requires Buy(l, quantity, price).ok && l.btc >= 0.0
    ensures var b := Buy(l, quantity, price).after;
            Sell(b, quantity, price).ok && Sell(b, quantity, price).after == l
  {
    var cost := quantity as real * price;
    var b := Buy(l, quantity, price).after;
    assert b == Ledger(Wrap32(l.inventory + quantity), l.usd - cost, l.btc + quantity as real);
    WrapInverse(l.inventory, quantity);
    assert Sell(b, quantity, price).after == Ledger(Wrap32(b.inventory - quantity), b.usd + cost, b.btc - quantity as real);
  }

  lemma WrapInverse(x: I32, q: I32)
    ensures Wrap32(Wrap32(x + q) - q) == x
  {
    var y := Wrap32(x + q);
    assert (x + q - y) % TWO_TO_32 == 0;
    var k := (x + q - y) / TWO_TO_32;
    assert y - q == x - k * TWO_TO_32;
    var z := Wrap32(y - q);
    assert (y - q - z) % TWO_TO_32 == 0;
    assert (x - z) % TWO_TO_32 == 0 by {
      assert x - z == (y - q - z) + k * TWO_TO_32;
    }
  }

  /** A shared balance cell (an AtomicU64 holding the bits of an f64). */
  class Balance {
    var value: real

    constructor (v: real)
      ensures value == v
    {
      value := v;
    }
  }

  class OrderEngine {
    var inventory: I32

    /** new(): the inventory starts at zero. */
    constructor ()
      ensures inventory == 0
    {
      inventory := 0;
    }

    method Inventory() returns (r: I32)
      ensures r == inventory
    {
      r := inventory;
    }

    method ExecuteBuy(quantity: I32, price: real, usd: Balance, btc: Balance) returns (ok: bool)
      requires usd != btc
      modifies this, usd, btc
      ensures var t := Buy(Ledger(old(inventory), old(usd.value), old(btc.value)), quantity, price);
              ok == t.ok && Ledger(inventory, usd.value, btc.value) == t.after
    {
      var cost := quantity as real * price;
      var currentUsd := usd.value;
      if currentUsd >= cost {
        inventory := Wrap32(inventory + quantity);
        usd.value := currentUsd - cost;
        var currentBtc := btc.value;
        btc.value := currentBtc + quantity as real;
        ok := true;
      } else {
        ok := false;
      }
    }

    method ExecuteSell(quantity: I32, price: real, usd: Balance, btc: Balance) returns (ok: bool)
      requires usd != btc
      modifies this, usd, btc
      ensures var t := Sell(Ledger(old(inventory), old(usd.value), old(btc.value)), quantity, price);
              ok == t.ok && Ledger(inventory, usd.value, btc.value) == t.after
    {
      var currentBtc := btc.value;
      if currentBtc >= quantity as real {
        inventory := Wrap32(inventory - quantity);
        var proceeds := quantity as real * price;
        var currentUsd := usd.value;
        usd.value := currentUsd + proceeds;
        btc.value := currentBtc - quantity as real;
        ok := true;
      } else {
        ok := false;
      }
    }

    method SetInventory(value: I32)
      modifies this
      ensures inventory == value
    {
      inventory := value;
    }
  }
}
