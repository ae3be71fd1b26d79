/** The C integer and bit behaviour the MPU-6050 driver relies on: byte and
    16-bit types, `/` on `long` (truncating toward zero), `&`, `|`, `<<` and
    `>>` on the 32-bit two's complement representation of `long`, the
    conversion of an `int` into an `int16_t`, and the big-endian byte pair. */
module Bits {

  type uint8 = x: int | 0 <= x < 0x100
  type uint16 = x: int | 0 <= x < 0x1_0000
  type int16 = x: int | -0x8000 <= x < 0x8000
  /** `long` on the driver's 32-bit target. */
  type int32 = x: int | -0x8000_0000 <= x < 0x8000_0000

  const LONG_MODULUS: nat := 0x1_0000_0000

  function Pow2(k: nat): (p: nat)
    ensures p >= 1
  {
    if k == 0 then 1 else 2 * Pow2(k - 1)
  }

  /** Bitwise AND of two non-negative bit patterns. */
  function BitAnd(a: nat, b: nat): nat
  {
    if a == 0 || b == 0 then 0
    else 2 * BitAnd(a / 2, b / 2) + (if a % 2 == 1 && b % 2 == 1 then 1 else 0)
  }

  /** Bitwise OR of two non-negative bit patterns. */
  function BitOr(a: nat, b: nat): nat
  {
    if a == 0 then b
    else if b == 0 then a
    else 2 * BitOr(a / 2, b / 2) + (if a % 2 == 1 || b % 2 == 1 then 1 else 0)
  }

  /** The bit pattern of a 32-bit `long` holding `v` (two's complement). */
  function LongBits(v: int): (p: nat)
    ensures p < LONG_MODULUS && (p - v) % LONG_MODULUS == 0
  {
    v % LONG_MODULUS
  }

  /** `v >> k` on a signed `long`: an arithmetic shift, which rounds toward
      minus infinity (Dafny's `/` by a positive divisor does the same). ISO
      C99 leaves a negative operand implementation-defined (section 6.5.7);
      this is what the target's compiler defines. */
  function ShiftRight(v: int, k: nat): int
  {
    v / Pow2(k)
  }

  /** `v & m` on a `long`, for a non-negative mask `m`. */
  function LongAnd(v: int, m: nat): nat
  {
    BitAnd(LongBits(v), m)
  }

  lemma {:induction false} AndLowMask(x: nat, k: nat)
    ensures BitAnd(x, Pow2(k) - 1) == x % Pow2(k)
  {
    if k == 0 {
    } else if x == 0 {
    } else {
      var m := Pow2(k) - 1;
      assert m / 2 == Pow2(k - 1) - 1 && m % 2 == 1;
      AndLowMask(x / 2, k - 1);
      DivModSplit(x, Pow2(k - 1));
    }
  }

  /** x % 2^k in terms of the bits of x / 2. */
  lemma DivModSplit(x: nat, q: nat)
    requires q >= 1
    ensures x % (2 * q) == 2 * ((x / 2) % q) + x % 2
  {
    var h := x / 2;
    assert x == 2 * h + x % 2;
    assert h == q * (h / q) + h % q;
    assert x == (2 * q) * (h / q) + (2 * (h % q) + x % 2);
    assert 0 <= 2 * (h % q) + x % 2 < 2 * q;
    ModUnique(x, 2 * q, h / q, 2 * (h % q) + x % 2);
  }

  lemma ModUnique(x: int, d: nat, q: int, r: int)
    requires d >= 1 && x == d * q + r && 0 <= r < d
    ensures x % d == r && x / d == q
  {
    var q', r' := x / d, x % d;
    assert d * q' + r' == d * q + r;
    if q' > q {
      MulAtLeast(d, q' - q, q', q);
    } else if q' < q {
      MulAtLeast(d, q - q', q, q');
    }
  }

  lemma MulAtLeast(d: nat, k: int, a: int, b: int)
    requires k >= 1 && k == a - b
    ensures d * a >= d * b + d
  {
    assert d * a == d * b + d * k;
  }

  /** Reducing modulo a multiple of 256 keeps the lowest byte. */
  lemma ModModByte(y: int, k: nat)
    requires k >= 1
    ensures (y % (256 * k)) % 256 == y % 256
  {
    var p := y % (256 * k);
    var a := y / (256 * k);
    assert y == (256 * k) * a + p;
    assert p == 256 * (p / 256) + p % 256;
    assert y == 256 * (k * a + p / 256) + p % 256;
    ModUnique(y, 256, k * a + p / 256, p % 256);
  }

  lemma {:induction false} OrBelow(a: nat, b: nat, k: nat)
    requires b < Pow2(k)
    ensures BitOr(a * Pow2(k), b) == a * Pow2(k) + b
  {
    if k == 0 || a == 0 || b == 0 {
    } else {
      var p := Pow2(k - 1);
      assert a * Pow2(k) == 2 * (a * p);
      assert (a * Pow2(k)) / 2 == a * p && (a * Pow2(k)) % 2 == 0;
      OrBelow(a, b / 2, k - 1);
    }
  }

  lemma OrBit0(x: nat, m: nat)
    requires m <= 1
    ensures BitOr(x, m) == if m == 1 && x % 2 == 0 then x + 1 else x
  {
    if x != 0 && m == 1 {
      assert BitOr(x / 2, 0) == x / 2;
    }
  }

  /** `(hi << 8) | lo` for two bytes: the big-endian 16-bit word they form. */
  function BeWord(hi: uint8, lo: uint8): (w: uint16)
    ensures w == hi * 256 + lo
  {
    OrBelow(hi, lo, 8);
    BitOr(hi * Pow2(8), lo)
  }

  /** `(v >> 8) & 0xff`: the second-lowest byte of a `long`. */
  function HighByte(v: int): (b: uint8)
    ensures b == (v / 256) % 256
  {
    AndLowMask(LongBits(ShiftRight(v, 8)), 8);
    ModModByte(v / 256, 0x100_0000);
    LongAnd(ShiftRight(v, 8), 0xff)
  }

  /** `v & 0xff`: the lowest byte of a `long`. */
  function LowByte(v: int): (b: uint8)
    ensures b == v % 256
  {
    AndLowMask(LongBits(v), 8);
    ModModByte(v, 0x100_0000);
    LongAnd(v, 0xff)
  }

  /** The conversion of an `int` in 0..65535 into an `int16_t`: the value is
      reduced modulo 2^16 into the signed range. ISO C99 leaves an
      out-of-range value implementation-defined (section 6.3.1.3); this is
      what the target's compiler defines. */
  function ToInt16(w: uint16): (v: int16)
    ensures (v - w) % 0x1_0000 == 0
  {
    if w < 0x8000 then w else w - 0x1_0000
  }

  /** `q` is the quotient `a / d` rounded toward zero. */
  ghost predicate RoundsTowardZero(a: int, d: int, q: int)
  {
    if a >= 0 then 0 <= q * d <= a < q * d + d
    else q * d - d < a <= q * d <= 0
  }

  /** C's `a / d` for a positive divisor: the quotient truncated toward zero
      (section 6.5.5 of ISO C99), where Dafny's `/` rounds toward minus
      infinity. */
  function CDiv(a: int, d: int): (q: int)
    requires d > 0
    ensures RoundsTowardZero(a, d, q)
  {
    if a >= 0 then QuotientBounds(a, d); a / d
    else NegatedQuotient(-a, d); -((-a) / d)
  }

  lemma QuotientBounds(n: int, d: int)
    requires n >= 0 && d > 0
    ensures var q := n / d; 0 <= q * d <= n < q * d + d
  {
    var q := n / d;
    assert q >= 0;
    assert n == d * q + n % d;
  }

  lemma NegatedQuotient(n: int, d: int)
    requires n > 0 && d > 0
    ensures var q := -(n / d); q * d - d < -n <= q * d <= 0
  {
    var m := n / d;
    assert m * d <= n < m * d + d;
    assert -m * d == -(m * d);
  }

  /** Splitting any value into its big-endian byte pair keeps exactly its
      low 16 bits. */
  lemma SplitKeepsLow16(v: int)
    ensures BeWord(HighByte(v), LowByte(v)) == v % 0x1_0000
  {
    var h := v / 256;
    assert v == 256 * h + v % 256;
    assert h == 256 * (h / 256) + h % 256;
    ModUnique(v, 0x1_0000, h / 256, 256 * (h % 256) + v % 256);
  }

  /** Splitting a big-endian word gives back its two bytes. */
  lemma WordRoundTrip(hi: uint8, lo: uint8)
    ensures HighByte(BeWord(hi, lo)) == hi && LowByte(BeWord(hi, lo)) == lo
  {
    var w := BeWord(hi, lo);
    ModUnique(w, 256, hi, lo);
    ModUnique(hi, 256, 0, hi);
    assert HighByte(w) == (w / 256) % 256 == hi % 256;
  }

  /** Splitting an `int16_t` into two bytes and reading them back gives the
      value again. */
  lemma Int16RoundTrip(v: int16)
    ensures ToInt16(BeWord(HighByte(v), LowByte(v))) == v
  {
    SplitKeepsLow16(v);
    if v < 0 {
      ModUnique(v, 0x1_0000, -1, v + 0x1_0000);
    } else {
      ModUnique(v, 0x1_0000, 0, v);
    }
  }

  /** Reading a big-endian pair as an `int16_t` and splitting it again gives
      the same two bytes. */
  lemma BytesRoundTrip(hi: uint8, lo: uint8)
    ensures HighByte(ToInt16(BeWord(hi, lo))) == hi
    ensures LowByte(ToInt16(BeWord(hi, lo))) == lo
  {
    var w := BeWord(hi, lo);
    var v := ToInt16(w);
    SplitKeepsLow16(v);
    if w < 0x8000 {
      ModUnique(v, 0x1_0000, 0, w);
    } else {
      ModUnique(v, 0x1_0000, -1, w);
    }
    WordRoundTrip(hi, lo);
  }
}
