/** Signed 64-bit arithmetic with overflow checks, and arithmetic on bytes. */
module Arithmetic {
  import opened Options

  type Byte = x: int | 0 <= x < 256

  const TWO63: int := 0x8000_0000_0000_0000
  const TWO64: int := 0x1_0000_0000_0000_0000

  predicate Fits(n: int) {
    -TWO63 <= n < TWO63
  }

  function InRange(n: int): (r: Option<int>) {
    if Fits(n) then Some(n) else None
  }

  // ----- division and shifts as the processor has them

  /** Division that drops the fraction. */
  function Quotient(a: int, b: int): (q: int)
    requires b != 0
  {
    if a >= 0 then (if b > 0 then a / b else -(a / -b)) else if b > 0 then -(-a / b) else -a / -b
  }

  function Remainder(a: int, b: int): (r: int)
    requires b != 0
  {
    a - Quotient(a, b) * b
  }

  function Power2(n: nat): (p: int)
    ensures p > 0
  {
    if n == 0 then 1 else 2 * Power2(n - 1)
  }

  /** A shift to the right fills with the sign. */
  function ShiftDown(a: int, n: nat): (r: int)
    decreases n
  {
    if n == 0 then a else ShiftDown(a / 2, n - 1)
  }

  // ----- the guards

  /** Addition is refused by a test that itself does not overflow. */
  function AddInt64(a: int, b: int): (r: Option<int>) {
    if (b > 0 && a > TWO63 - 1 - b) || (b < 0 && a < -TWO63 - b) then None else Some(a + b)
  }

  function SubInt64(a: int, b: int): (r: Option<int>) {
    if (b > 0 && a < -TWO63 + b) || (b < 0 && a > TWO63 - 1 + b) then None else Some(a - b)
  }

  function MulInt64(a: int, b: int): (r: Option<int>) {
    if || (a > 0 && b > 0 && a > Quotient(TWO63 - 1, b))
       || (a > 0 && b <= 0 && b < Quotient(-TWO63, a))
       || (a <= 0 && b > 0 && a < Quotient(-TWO63, b))
       || (a < 0 && b <= 0 && b < Quotient(TWO63 - 1, a)) then None
    else Some(a * b)
  }

  function DivInt64(a: int, b: int): (r: Option<int>) {
    if b == 0 || (a == -TWO63 && b == -1) then None else Some(Quotient(a, b))
  }

  function ModInt64(a: int, b: int): (r: Option<int>) {
    if b == 0 || (a == -TWO63 && b == -1) then None else Some(Remainder(a, b))
  }

  function NegateInt64(a: int): (r: Option<int>) {
    if a == -TWO63 then None else Some(-a)
  }

  function LshiftInt64(a: int, b: int): (r: Option<int>) {
    if b < 0 || b >= 64 then None
    else if (a >= 0 && a > ShiftDown(TWO63 - 1, b)) || (a < 0 && a < ShiftDown(-TWO63, b)) then None
    else Some(a * Power2(b))
  }

  lemma {:induction false} AddExact(a: int, b: int)
    requires Fits(a) && Fits(b)
    ensures AddInt64(a, b) == InRange(a + b) && SubInt64(a, b) == InRange(a - b)
  {
  }

  /** `a` is at most the quotient exactly when the product is at most the bound. */
  lemma {:induction false} BelowQuotient(a: int, b: int, m: int)
    requires b > 0
    ensures a <= m / b <==> a * b <= m
  {
    var q, r := m / b, m % b;
    assert m == q * b + r;
    if a <= q {
      Monotone(a, q, b);
    } else {
      Monotone(q + 1, a, b);
      assert (q + 1) * b == q * b + b;
    }
  }

  lemma {:induction false} Monotone(a: int, b: int, c: int)
    requires a <= b && c >= 0
    ensures a * c <= b * c
  {
    assert (b - a) * c >= 0;
    assert (b - a) * c == b * c - a * c;
  }

  /** Multiplication is refused exactly when the product does not fit. */
  lemma {:induction false} MulExact(a: int, b: int)
    requires Fits(a) && Fits(b)
    ensures MulInt64(a, b) == InRange(a * b)
  {
    if a > 0 && b > 0 {
      BelowQuotient(a, b, TWO63 - 1);
      Monotone(0, a, b);
    } else if a > 0 && b < 0 {
      MixedProduct(a, b);
    } else if a < 0 && b > 0 {
      MixedProduct(b, a);
    } else if a < 0 && b < 0 {
      BelowQuotient(-b, -a, TWO63 - 1);
      Monotone(0, -b, -a);
      assert (-b) * (-a) == a * b;
    }
  }

  lemma {:induction false} MixedProduct(a: int, b: int)
    requires a > 0 && b < 0
    ensures b < Quotient(-TWO63, a) <==> a * b < -TWO63
    ensures a * b < 0
  {
    BelowQuotient(-b, a, TWO63);
    assert (-b) * a == -(a * b);
    Monotone(1, -b, a);
  }

  lemma {:induction false} HalvesBelow(a: int, m: int, n: nat)
    ensures a <= ShiftDown(m, n) <==> a * Power2(n) <= m
    decreases n
  {
    if n > 0 {
      HalvesBelow(a, m / 2, n - 1);
      var p := a * Power2(n - 1);
      assert a * Power2(n) == 2 * p;
    }
  }

  lemma {:induction false} HalvesAbove(a: int, n: nat)
    requires n < 64
    ensures a >= ShiftDown(-TWO63, n) <==> a * Power2(n) >= -TWO63
  {
    HalvesBelow(a - 1, -TWO63, n);
    assert (a - 1) * Power2(n) == a * Power2(n) - Power2(n);
    LowestShift(n);
    HalvesBelow(ShiftDown(-TWO63, n), -TWO63, n);
    if a >= ShiftDown(-TWO63, n) {
      Monotone(ShiftDown(-TWO63, n), a, Power2(n));
    }
  }

  lemma {:induction false} PowerSum(m: nat, n: nat)
    ensures Power2(m + n) == Power2(m) * Power2(n)
    decreases m
  {
    if m > 0 {
      PowerSum(m - 1, n);
      assert 2 * (Power2(m - 1) * Power2(n)) == (2 * Power2(m - 1)) * Power2(n);
    }
  }

  lemma {:induction false} Power63()
    ensures Power2(63) == TWO63
  {
    assert Power2(7) == 128;
    PowerSum(7, 7);
    PowerSum(14, 7);
    PowerSum(21, 21);
    PowerSum(42, 21);
  }

  lemma {:induction false} ShiftPower(m: nat, n: nat)
    requires n <= m
    ensures ShiftDown(-Power2(m), n) == -Power2(m - n)
    decreases n
  {
    if n > 0 {
      assert -Power2(m) / 2 == -Power2(m - 1);
      ShiftPower(m - 1, n - 1);
    }
  }

  /** The lowest number times no power of two has a fraction to drop, short of the last shift. */
  lemma {:induction false} LowestShift(n: nat)
    requires n < 64
    ensures ShiftDown(-TWO63, n) * Power2(n) == -TWO63
  {
    Power63();
    ShiftPower(63, n);
    PowerSum(63 - n, n);
  }

  /** A shift to the left is refused exactly when the number does not fit. */
  lemma {:induction false} LshiftExact(a: int, b: int)
    requires Fits(a) && 0 <= b && a != 0
    ensures LshiftInt64(a, b) == InRange(a * Power2(b))
  {
    if b < 64 {
      HalvesBelow(a, TWO63 - 1, b);
      HalvesAbove(a, b);
      Monotone(0, if a > 0 then a else -a, Power2(b));
    } else {
      Power63();
      PowerSum(63, b - 63);
      assert Power2(b - 63) == 2 * Power2(b - 64);
      Monotone(2, Power2(b - 63), TWO63);
      assert Power2(b) >= TWO64;
      if a > 0 {
        Monotone(1, a, Power2(b));
      } else {
        Monotone(1, -a, Power2(b));
        assert (-a) * Power2(b) == -(a * Power2(b));
      }
    }
  }

  /** A shift to the right divides, downwards. */
  lemma {:induction false} ShiftDownIs(a: int, n: nat)
    ensures ShiftDown(a, n) == a / Power2(n)
  {
    var q := a / Power2(n);
    BelowQuotient(q, Power2(n), a);
    HalvesBelow(q, a, n);
    BelowQuotient(q + 1, Power2(n), a);
    HalvesBelow(q + 1, a, n);
  }

  lemma {:induction false} QuotientSize(n: nat, d: nat)
    requires d >= 1
    ensures 0 <= n / d <= n && (d >= 2 ==> 2 * (n / d) <= n)
  {
    var q := n / d;
    BelowQuotient(q, d, n);
    Monotone(1, d, q);
    if d >= 2 {
      Monotone(2, d, q);
    }
  }

  /** A quotient is no larger than the dividend, so only one does not fit. */
  lemma {:induction false} DivExact(a: int, b: int)
    requires Fits(a) && Fits(b) && b != 0
    ensures DivInt64(a, b) == InRange(Quotient(a, b))
  {
    QuotientSize(Abs(a), Abs(b));
  }

  // ----- remainders

  /** The remainder the machine gives: with the sign of the divisor. */
  function FloorMod(a: int, b: int): (r: int)
    requires b != 0
  {
    var r := Remainder(a, b);
    if r != 0 && (a >= 0) != (b >= 0) then r + b else r
  }

  /** Division drops the fraction and the remainder is taken downwards, so the two fit together
      exactly for equal signs or without a remainder. */
  lemma {:induction false} DivModLaw(a: int, b: int)
    requires b != 0
    ensures Quotient(a, b) * b + FloorMod(a, b) == a <==> FloorMod(a, b) == 0 || (a >= 0) == (b >= 0)
  {
    RemainderSize(a, b);
  }

  /** The quotient has the size of the quotient of the sizes. */
  lemma {:induction false} QuotientTimes(a: int, b: int)
    requires b != 0
    ensures var q := Abs(a) / Abs(b); Quotient(a, b) * b == if a >= 0 then q * Abs(b) else -(q * Abs(b))
  {
    var q := Abs(a) / Abs(b);
    assert (-q) * b == -(q * b);
    assert q * -b == -(q * b);
    assert (-q) * -b == q * b;
  }

  lemma {:induction false} RemainderSize(a: int, b: int)
    requires b != 0
    ensures Remainder(a, b) == if a >= 0 then Abs(a) % Abs(b) else -(Abs(a) % Abs(b))
  {
    QuotientTimes(a, b);
    var q, r := Abs(a) / Abs(b), Abs(a) % Abs(b);
    assert Abs(a) == q * Abs(b) + r;
  }

  /** The machine's remainder is smaller than the divisor and has its sign. */
  lemma {:induction false} FloorModSize(a: int, b: int)
    requires b != 0
    ensures var r := FloorMod(a, b); if b > 0 then 0 <= r < b else b < r <= 0
  {
    RemainderSize(a, b);
  }

  function Abs(n: int): (r: int)
    ensures r >= 0
  {
    if n < 0 then -n else n
  }

  // ----- bytes

  /** The number made by combining the lowest `n` bits of two numbers. */
  function ByBits(f: (bool, bool) -> bool, a: nat, b: nat, n: nat): (r: nat)
    ensures r < Power2(n)
  {
    if n == 0 then 0
    else (if f(a % 2 == 1, b % 2 == 1) then 1 else 0) + 2 * ByBits(f, a / 2, b / 2, n - 1)
  }

  lemma {:induction false} Power8()
    ensures Power2(8) == 256
  {
    assert Power2(4) == 16;
  }

  function CombineByte(f: (bool, bool) -> bool, a: Byte, b: Byte): (r: Byte) {
    Power8();
    ByBits(f, a, b, 8)
  }
}
