/** The values the driver writes into the gyroscope and accelerometer offset
    registers: range-dependent scaling of the caller's offset, the big-endian
    split, and the accelerometer's read-modify-write that keeps bit 0 of the
    low byte. */
module Offsets {
  import opened Bits

  /** The gyroscope offset rescaled for the full-scale range the caller
      gives (in deg/s): 250 and 500 divide by 4 and 2 with C's truncating
      division, 1000 keeps it, 2000 doubles it, any other range leaves it
      as it is. */
  function GyroScale(off: int, range: int16): (r: int)
    ensures range == 250 ==> RoundsTowardZero(off, 4, r)
    ensures range == 500 ==> RoundsTowardZero(off, 2, r)
    ensures range == 2000 ==> r == 2 * off
    ensures range != 250 && range != 500 && range != 2000 ==> r == off
  {
    if range == 250 then CDiv(off, 4)
    else if range == 500 then CDiv(off, 2)
    else if range == 1000 then off * 1
    else if range == 2000 then off * 2
    else off
  }

  /** The two bytes written to a gyroscope offset pair: the low 16 bits of
      the scaled offset, high byte first. */
  function GyroOffsetBytes(off: int, range: int16): (b: seq<uint8>)
    ensures |b| == 2 && BeWord(b[0], b[1]) == GyroScale(off, range) % 0x1_0000
  {
    var scaled := GyroScale(off, range);
    SplitKeepsLow16(scaled);
    [HighByte(scaled), LowByte(scaled)]
  }

  /** A scaled offset that fits in 16 bits reads back from the register
      pair unchanged. */
  lemma GyroOffsetReadsBack(off: int, range: int16)
    requires -0x8000 <= GyroScale(off, range) < 0x8000
    ensures var b := GyroOffsetBytes(off, range); ToInt16(BeWord(b[0], b[1])) == GyroScale(off, range)
  {
    Int16RoundTrip(GyroScale(off, range));
  }

  /** Because the division truncates toward zero, opposite offsets are
      scaled to opposite values. */
  lemma GyroScaleOdd(off: int, range: int16)
    ensures GyroScale(-off, range) == -GyroScale(off, range)
  {
    if off < 0 {
      assert -off >= 0;
    }
  }

  /** An offset of 1000 at each documented range. */
  lemma GyroScaleOfThousand()
    ensures GyroScale(1000, 250) == 250 && GyroScale(1000, 500) == 500
    ensures GyroScale(1000, 1000) == 1000 && GyroScale(1000, 2000) == 2000
  {
  }

  /** The accelerometer offset rescaled for the full-scale range the caller
      gives (in g): 2, 4 and 8 divide by 8, 4 and 2 with C's truncating
      division; for 16 the driver divides by a floating-point factor, whose
      truncated result `quotient16` is taken as given; any other range
      leaves the offset as it is. */
  function AccelScale(off: int, range: int16, quotient16: int): (r: int)
    ensures range == 2 ==> RoundsTowardZero(off, 8, r)
    ensures range == 4 ==> RoundsTowardZero(off, 4, r)
    ensures range == 8 ==> RoundsTowardZero(off, 2, r)
    ensures range == 16 ==> r == quotient16
    ensures range != 2 && range != 4 && range != 8 && range != 16 ==> r == off
  {
    if range == 2 then CDiv(off, 8)
    else if range == 4 then CDiv(off, 4)
    else if range == 8 then CDiv(off, 2)
    else if range == 16 then quotient16
    else off
  }

  /** The two bytes written back to an accelerometer offset pair that held
      `current`: the stored bias minus the scaled offset, keeping its low
      16 bits, with bit 0 of the old low byte OR-ed into the new low byte. */
  function AccelOffsetBytes(current: seq<uint8>, scaled: int): (b: seq<uint8>)
    requires |current| == 2
    ensures |b| == 2
    ensures var diff := (BeWord(current[0], current[1]) - scaled) % 0x1_0000;
            var w := BeWord(b[0], b[1]);
            w / 2 == diff / 2 && w % 2 == (if current[1] % 2 == 1 then 1 else diff % 2)
  {
    var bias := BeWord(current[0], current[1]);
    var maskBit := if LongAnd(bias, 1) != 0 then 1 else 0;
    var updated := bias - scaled;
    MaskBitIsBit0(current[0], current[1]);
    SplitKeepsLow16(updated);
    OrBit0(LowByte(updated), maskBit);
    MergeBit0(HighByte(updated), LowByte(updated), maskBit);
    [HighByte(updated), BitOr(LowByte(updated), maskBit)]
  }

  /** `bias & 1` for a bias read from a register pair is bit 0 of its low
      byte. */
  lemma MaskBitIsBit0(hi: uint8, lo: uint8)
    ensures LongAnd(BeWord(hi, lo), 1) == lo % 2
  {
    var bias := BeWord(hi, lo);
    assert LongBits(bias) == bias;
    AndLowMask(bias, 1);
    assert Pow2(1) == 2;
    assert bias == 2 * (hi * 128 + lo / 2) + lo % 2;
    ModUnique(bias, 2, hi * 128 + lo / 2, lo % 2);
  }

  /** OR-ing `m` into bit 0 of the low byte of a word changes bit 0 only. */
  lemma MergeBit0(hi: uint8, lo: uint8, m: nat)
    requires m <= 1
    ensures var lo' := if m == 1 && lo % 2 == 0 then lo + 1 else lo;
            lo' < 256 &&
            (hi * 256 + lo') / 2 == (hi * 256 + lo) / 2 &&
            (hi * 256 + lo') % 2 == (if m == 1 then 1 else lo % 2)
  {
    var lo' := if m == 1 && lo % 2 == 0 then lo + 1 else lo;
    assert hi * 256 + lo == 2 * (hi * 128 + lo / 2) + lo % 2;
    assert hi * 256 + lo' == 2 * (hi * 128 + lo / 2) + lo' % 2;
    ModUnique(hi * 256 + lo, 2, hi * 128 + lo / 2, lo % 2);
    ModUnique(hi * 256 + lo', 2, hi * 128 + lo / 2, lo' % 2);
  }

  /** Bit 0 of the low byte survives the update when it was set. */
  lemma AccelKeepsSetBit0(current: seq<uint8>, scaled: int)
    requires |current| == 2 && current[1] % 2 == 1
    ensures AccelOffsetBytes(current, scaled)[1] % 2 == 1
  {
    var b := AccelOffsetBytes(current, scaled);
    assert BeWord(b[0], b[1]) % 2 == b[1] % 2;
  }

  /** A clear bit 0 is not forced to stay clear: subtracting 1 from a
      zero bias sets every bit, bit 0 included. */
  lemma AccelClearBit0NotForced()
    ensures AccelOffsetBytes([0, 0], 1) == [0xff, 0xff]
  {
    var b := AccelOffsetBytes([0, 0], 1);
    assert BeWord(b[0], b[1]) == 0xffff;
  }
}
