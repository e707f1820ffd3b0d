/**
  Six-decimal fixed-point numbers: a wrapper around a signed 64-bit integer
  whose unit is one millionth. Every operation acts on the raw integer.
  Rust panics on i64 overflow in debug builds and on division by zero, so
  those cases are preconditions here; its `/` truncates toward zero, which
  `TruncDiv` spells out on top of Dafny's Euclidean division.
*/
module FixedPointArith {

  const SCALE: int := 1_000_000

  const I64_MIN: int := -0x8000_0000_0000_0000
  const I64_MAX: int := 0x7FFF_FFFF_FFFF_FFFF

  predicate InI64(x: int) {
    I64_MIN <= x <= I64_MAX
  }

  type I64 = x: int | InI64(x)

  function Abs(x: int): nat {
    if x < 0 then -x else x
  }

  /** Integer division rounding toward zero, as Rust's `/` on i64. */
  function TruncDiv(a: int, b: int): (q: int)
    requires b != 0
    // the remainder is smaller than the divisor and has the dividend's sign
    ensures Abs(a - b * q) < Abs(b)
    ensures a - b * q == 0 || (a - b * q < 0 <==> a < 0)
    ensures Abs(q) <= Abs(a)
  {
    var n, d := Abs(a), Abs(b);
    var q0 := n / d;
    DivideNatural(n, d);
    var q := if (a < 0) == (b < 0) then q0 else -(q0 as int);
    SignedRemainder(a, b, n, d, q0, q);
    q
  }

  /** How the remainder of the signed quotient follows from that of the natural one. */
  lemma SignedRemainder(a: int, b: int, n: nat, d: nat, q0: nat, q: int)
    requires n == Abs(a) && d == Abs(b) && d > 0
    requires 0 <= n - d * q0 < d && q0 <= n
    requires q == if (a < 0) == (b < 0) then q0 else -(q0 as int)
    ensures Abs(a - b * q) < Abs(b)
    ensures a - b * q == 0 || (a - b * q < 0 <==> a < 0)
    ensures Abs(q) <= Abs(a)
  {
    if a >= 0 {
      assert b * q == d * q0 by { MulAbsSigned(b, q, d, q0); }
    } else {
      assert b * q == -(d * q0) by { MulAbsSigned(b, q, d, q0); }
    }
  }

  lemma MulAbsSigned(b: int, q: int, d: nat, q0: nat)
    requires d == Abs(b) && (q == q0 || q == -(q0 as int))
    ensures (b < 0) == (q < 0) || q == 0 ==> b * q == d * q0
    ensures (b < 0) != (q < 0) && q != 0 ==> b * q == -(d * q0)
  {
    if b < 0 && q < 0 {
      assert b * q == (-b) * (-q);
    } else if b < 0 {
      assert b * q == -((-b) * q);
    } else if q < 0 {
      assert b * q == -(b * (-q));
    }
  }

  /** Euclidean division of naturals: the quotient and remainder bounds. */
  lemma DivideNatural(n: nat, d: nat)
    requires d > 0
    ensures 0 <= n - d * (n / d) < d
    ensures 0 <= n / d <= n
  {
    assert n == d * (n / d) + n % d;
    if n / d > n {
      MulAtLeast(n / d, d);
      assert false;
    }
  }

  lemma {:induction false} MulAtLeast(x: nat, y: nat)
    requires y >= 1
    ensures x * y >= x
    decreases y
  {
    if y > 1 {
      MulAtLeast(x, y - 1);
      assert x * y == x * (y - 1) + x;
    }
  }

  /** A quotient with no remainder is exact, whatever the rounding mode. */
  lemma {:induction false} TruncDivExact(k: int, b: int)
    requires b != 0
    ensures TruncDiv(k * b, b) == k
  {
    var q := TruncDiv(k * b, b);
    assert k * b - b * q == b * (k - q);
    if k != q {
      MulAbs(b, k - q);
      MulAtLeast(Abs(b), Abs(k - q));
      assert false;
    }
  }

  lemma MulAbs(x: int, y: int)
    ensures Abs(x * y) == Abs(x) * Abs(y)
  {
    if x < 0 && y < 0 {
      assert x * y == (-x) * (-y);
    } else if x < 0 {
      assert x * y == -((-x) * y);
    } else if y < 0 {
      assert x * y == -(x * (-y));
    }
  }

  /** `struct FixedPoint(i64)`: the raw value counts millionths. */
  datatype FixedPoint = FixedPoint(raw: I64)

  const ONE: FixedPoint := FixedPoint(SCALE)

  function Zero(): (z: FixedPoint)
    ensures !IsPositive(z) && Compare(z, ONE) == Less
  {
    FixedPoint(0)
  }

  function IsPositive(a: FixedPoint): bool {
    a.raw > 0
  }

  function Add(a: FixedPoint, b: FixedPoint): (r: FixedPoint)
    requires InI64(a.raw + b.raw)
  {
    FixedPoint(a.raw + b.raw)
  }

  function Sub(a: FixedPoint, b: FixedPoint): (r: FixedPoint)
    requires InI64(a.raw - b.raw)
  {
    FixedPoint(a.raw - b.raw)
  }

  /** The raw product is formed first (it must fit in an i64), then scaled down. */
  function Mul(a: FixedPoint, b: FixedPoint): (r: FixedPoint)
    requires InI64(a.raw * b.raw)
    ensures Abs(r.raw) * SCALE <= Abs(a.raw * b.raw)
  {
    var p := a.raw * b.raw;
    var q := TruncDiv(p, SCALE);
    assert Abs(q) * SCALE <= Abs(p) by {
      assert Abs(p - SCALE * q) < SCALE;
    }
    FixedPoint(q)
  }

  /** The dividend is scaled up first (it must fit in an i64); the divisor must not be zero. */
  function Div(a: FixedPoint, b: FixedPoint): (r: FixedPoint)
    requires b.raw != 0
    requires InI64(a.raw * SCALE)
    ensures Abs(r.raw) <= Abs(a.raw * SCALE)
  {
    var p := a.raw * SCALE;
    assert p != I64_MIN;
    FixedPoint(TruncDiv(p, b.raw))
  }

  /** The derived `Ord`: compare the raw integers. */
  datatype Ordering = Less | Equal | Greater

  function Compare(a: FixedPoint, b: FixedPoint): Ordering {
    if a.raw < b.raw then Less else if a.raw == b.raw then Equal else Greater
  }

  // ---- properties ----

  lemma AddSubRoundTrip(a: FixedPoint, b: FixedPoint)
    requires InI64(a.raw + b.raw)
    ensures InI64(Add(a, b).raw - b.raw) && Sub(Add(a, b), b) == a
  {
  }

  lemma ZeroIsIdentity(a: FixedPoint)
    ensures Add(a, Zero()) == a && Add(Zero(), a) == a && Sub(a, Zero()) == a
  {
  }

  lemma AddCommutes(a: FixedPoint, b: FixedPoint)
    requires InI64(a.raw + b.raw)
    ensures Add(a, b) == Add(b, a)
  {
  }

  /** ONE is a two-sided identity for Mul whenever the raw product fits. */
  lemma {:induction false} MulByOne(a: FixedPoint)
    requires InI64(a.raw * SCALE)
    ensures Mul(a, ONE) == a && Mul(ONE, a) == a
  {
    TruncDivExact(a.raw, SCALE);
    assert SCALE * a.raw == a.raw * SCALE;
  }

  /** Dividing by ONE gives back the dividend. */
  lemma {:induction false} DivByOne(a: FixedPoint)
    requires InI64(a.raw * SCALE)
    ensures Div(a, ONE) == a
  {
    TruncDivExact(a.raw, SCALE);
  }

  /** Division of a non-zero multiple of the divisor's scale undoes multiplication. */
  lemma {:induction false} DivUndoesExactMul(a: FixedPoint, b: FixedPoint)
    requires b.raw != 0 && InI64(a.raw * b.raw) && (a.raw * b.raw) % SCALE == 0
    requires InI64(Mul(a, b).raw * SCALE)
    ensures Div(Mul(a, b), b) == a
  {
    var p := a.raw * b.raw;
    var k := p / SCALE;
    assert p == k * SCALE;
    TruncDivExact(k, SCALE);
    assert Mul(a, b).raw == k;
    assert k * SCALE == a.raw * b.raw;
    TruncDivExact(a.raw, b.raw);
    assert a.raw * b.raw == b.raw * a.raw;
  }

  lemma IsPositiveMeansAboveZero(a: FixedPoint)
    ensures IsPositive(a) <==> Compare(a, Zero()) == Greater
  {
  }

  /** The derived ordering is a total order that agrees with equality. */
  lemma CompareIsTotalOrder(a: FixedPoint, b: FixedPoint, c: FixedPoint)
    ensures Compare(a, b) == Equal <==> a == b
    ensures Compare(a, b) == Less <==> Compare(b, a) == Greater
    ensures Compare(a, b) == Less && Compare(b, c) == Less ==> Compare(a, c) == Less
  {
  }
}
