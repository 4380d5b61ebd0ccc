/** Shared value types and the explicit rounding and wrap-around rules of the
    three languages the analyzer is written in (C#, C++ and JavaScript). */
module Prelude {

  datatype Option<T> = None | Some(value: T)

  /** A value of a C/C++ `unsigned short` / `uint16_t`. */
  type U16 = x: int | 0 <= x < 0x1_0000

  /** A value of a C/C++ `uint8_t`. */
  type U8 = x: int | 0 <= x < 0x100

  /** A value of an ESP32 `unsigned long` (32 bits), as `millis()` returns it. */
  type U32 = x: int | 0 <= x < 0x1_0000_0000

  /** A value of a `uint64_t`. */
  type U64 = x: int | 0 <= x < 0x1_0000_0000_0000_0000

  /** Conversion of an `int` result back into an `unsigned short` (modulo 2^16). */
  function WrapU16(x: int): (r: U16)
    ensures (r - x) % 0x1_0000 == 0
  {
    x % 0x1_0000
  }

  /** Conversion of an `int` result back into a `uint8_t` (modulo 2^8). */
  function WrapU8(x: int): (r: U8)
    ensures (r - x) % 0x100 == 0
  {
    x % 0x100
  }

  /** Unsigned subtraction of two `unsigned long` values (modulo 2^32). */
  function SubU32(a: U32, b: U32): (r: U32)
    ensures a >= b ==> r == a - b
    ensures a < b ==> r == a - b + 0x1_0000_0000
  {
    (a - b) % 0x1_0000_0000
  }

  /** Unsigned subtraction of two `uint64_t` values (modulo 2^64). */
  function SubU64(a: U64, b: U64): (r: U64)
    ensures a >= b ==> r == a - b
    ensures a < b ==> r == a - b + 0x1_0000_0000_0000_0000
  {
    (a - b) % 0x1_0000_0000_0000_0000
  }

  function MaxReal(a: real, b: real): (m: real)
    ensures m >= a && m >= b && (m == a || m == b)
  {
    if a >= b then a else b
  }

  function MinInt(a: int, b: int): (m: int)
    ensures m <= a && m <= b && (m == a || m == b)
  {
    if a <= b then a else b
  }

  /** C# `(int)x` on a double, and C/C++ conversion of a floating value to an
      integer type: truncation toward zero. */
  function Trunc(x: real): (n: int)
    ensures x >= 0.0 ==> n as real <= x < n as real + 1.0
    ensures x < 0.0 ==> n as real - 1.0 < x <= n as real
  {
    if x >= 0.0 then x.Floor else -((-x).Floor)
  }

  /** C# `Convert.ToInt32(double)`: the nearest integer, ties to the even one. */
  function RoundHalfEven(x: real): (n: int)
    ensures n as real - 0.5 <= x <= n as real + 0.5
    ensures (x == n as real - 0.5 || x == n as real + 0.5) ==> n % 2 == 0
  {
    var f := x.Floor;
    var d := x - f as real;
    if d < 0.5 then f
    else if d > 0.5 then f + 1
    else if f % 2 == 0 then f
    else f + 1
  }

  /** JavaScript `Math.round`: the nearest integer, ties toward +infinity. */
  function RoundHalfUp(x: real): (n: int)
    ensures n as real - 0.5 <= x < n as real + 0.5
  {
    (x + 0.5).Floor
  }

  /** C# and C++ `/` on integers: the quotient truncated toward zero. */
  function CDiv(a: int, b: int): (q: int)
    requires b != 0
    ensures var r := a - b * q;
      (a >= 0 ==> 0 <= r) && (a <= 0 ==> r <= 0) && (if b > 0 then -b < r < b else b < r < -b)
  {
    var na, nb := if a >= 0 then a else -a, if b >= 0 then b else -b;
    var q0 := na / nb;
    DivRemainder(na, nb);
    MulSigns(b, nb, q0);
    if (a >= 0) == (b > 0) then q0 else -q0
  }

  /** Euclidean division of a nonnegative numerator leaves a remainder below the divisor. */
  lemma DivRemainder(n: int, d: int)
    requires n >= 0 && d > 0
    ensures 0 <= n - d * (n / d) < d
  {
  }

  /** Multiplying by a number or by its negation. */
  lemma MulSigns(b: int, nb: int, q: int)
    requires nb == b || nb == -b
    ensures b * q == (if nb == b then nb * q else -(nb * q))
    ensures b * -q == -(b * q)
  {
  }

  /** For a nonnegative numerator and a positive divisor truncation is floor. */
  lemma CDivNonnegative(a: int, b: int)
    requires a >= 0 && b > 0
    ensures CDiv(a, b) == a / b
  {
  }

  /** Truncating division of a negated nonnegative numerator. */
  lemma CDivNegate(a: int, d: int)
    requires a >= 0 && d >= 1
    ensures CDiv(-a, d) == -(a / d)
  {
  }

  lemma DivMonotone(a: int, b: int, d: int)
    requires 0 <= a <= b && d > 0
    ensures a / d <= b / d
  {
    var qa, qb := a / d, b / d;
    assert d * qa + a % d == a && d * qb + b % d == b;
    if qa > qb {
      MulMonotone(d, qb + 1, qa);
    }
  }

  lemma MulMonotone(d: int, x: int, y: int)
    requires d > 0 && x <= y
    ensures d * x <= d * y
  {
  }

  /** A fraction in [0, 1] of a nonnegative amount lies between 0 and the amount. */
  lemma UnitScale(m: real, k: real)
    requires 0.0 <= m <= 1.0 && k >= 0.0
    ensures 0.0 <= m * k <= k
  {
    assert m * k >= 0.0;
    assert (1.0 - m) * k >= 0.0;
    assert (1.0 - m) * k == k - m * k;
  }

  /** A percentage in [0, 100] of a nonnegative amount lies between 0 and the amount. */
  lemma PercentBetween(x: real, percent: real)
    requires 0.0 <= x && 0.0 <= percent <= 100.0
    ensures 0.0 <= x * percent / 100.0 <= x
  {
    UnitScale(percent / 100.0, x);
    assert x * percent / 100.0 == percent / 100.0 * x;
  }

  /** Rounding a value between two integers gives an integer between them. */
  lemma RoundHalfEvenBetween(x: real, lo: int, hi: int)
    requires lo as real <= x <= hi as real
    ensures lo <= RoundHalfEven(x) <= hi
  {
    var n := RoundHalfEven(x);
    assert n as real - 0.5 <= x <= n as real + 0.5;
    assert (n - hi) as real <= 0.5 && (lo - n) as real <= 0.5;
  }

  lemma RoundHalfEvenOfInt(n: int)
    ensures RoundHalfEven(n as real) == n
  {
  }

  /** Truncating a value between 0 and an integer gives an integer between
      them, not above the value. */
  lemma TruncBetween(w: real, hi: int)
    requires 0.0 <= w <= hi as real
    ensures 0 <= Trunc(w) <= hi && Trunc(w) as real <= w
  {
    var n := Trunc(w);
    assert n as real <= w < n as real + 1.0;
  }

  lemma {:induction false} TruncMonotone(x: real, y: real)
    requires x <= y
    ensures Trunc(x) <= Trunc(y)
  {
    if x >= 0.0 {
    } else if y < 0.0 {
      assert (-y).Floor <= (-x).Floor;
    }
  }
}
