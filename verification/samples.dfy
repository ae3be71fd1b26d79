/** Decoding of the raw accelerometer and gyroscope bursts: each burst holds
    three big-endian 16-bit two's complement values, X first. */
module Samples {
  import opened Bits

  /** `(hi << 8) | lo` stored into an `int16_t` field. */
  function DecodeAxis(hi: uint8, lo: uint8): (v: int16)
    ensures (v - (hi * 256 + lo)) % 0x1_0000 == 0
    ensures HighByte(v) == hi && LowByte(v) == lo
  {
    BytesRoundTrip(hi, lo);
    ToInt16(BeWord(hi, lo))
  }

  /** The three values of a 6-byte burst, in register order. */
  function DecodeBurst(b: seq<uint8>): (v: seq<int16>)
    requires |b| == 6
    ensures |v| == 3
    ensures forall i :: 0 <= i < 3 ==> v[i] == DecodeAxis(b[2 * i], b[2 * i + 1])
  {
    [DecodeAxis(b[0], b[1]), DecodeAxis(b[2], b[3]), DecodeAxis(b[4], b[5])]
  }

  /** The register contents that decode to the three values `v`. */
  function EncodeBurst(v: seq<int16>): (b: seq<uint8>)
    requires |v| == 3
    ensures |b| == 6
  {
    [HighByte(v[0]), LowByte(v[0]), HighByte(v[1]), LowByte(v[1]), HighByte(v[2]), LowByte(v[2])]
  }

  /** Re-encoding the decoded values gives back the burst. */
  lemma {:induction false} BurstRoundTrip(b: seq<uint8>)
    requires |b| == 6
    ensures EncodeBurst(DecodeBurst(b)) == b
  {
    var v := DecodeBurst(b);
    assert v[0] == DecodeAxis(b[0], b[1]);
    assert v[1] == DecodeAxis(b[2], b[3]);
    assert v[2] == DecodeAxis(b[4], b[5]);
  }

  /** Decoding the encoding of three values gives them back. */
  lemma {:induction false} ValuesRoundTrip(v: seq<int16>)
    requires |v| == 3
    ensures DecodeBurst(EncodeBurst(v)) == v
  {
    Int16RoundTrip(v[0]);
    Int16RoundTrip(v[1]);
    Int16RoundTrip(v[2]);
  }
}
