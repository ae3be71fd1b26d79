# MPU-6050 register driver, modelled in Dafny

This project models the register-level driver for the MPU-6050 six-axis
inertial sensor (`mpu6050/mpu6050_lib.c`). The driver talks to the sensor
through blocking I2C memory reads and writes. It identifies the part and
configures it (`mpu6050_init`). It reads raw accelerometer and gyroscope
samples (`mpu6050_getRawData`). It reads the accelerometer offset registers
(`mpu6500_readAccelOffsets`) and writes offsets into the gyroscope and
accelerometer offset registers (`mpu6050_setGyroOff{X,Y,Z}`,
`mpu6050_setAccelOff{X,Y,Z}`).

Modules, one per concern:

- `Bits` (`bits.dfy`) holds the C integer behaviour the driver depends on.
  Bitwise `&` and `|` are defined on bit patterns. `/` truncates toward
  zero (Dafny's `/` does not). Two behaviours that ISO C leaves
  implementation-defined are taken as the target's ARM compiler defines
  them: `>>` on a negative `long` is an arithmetic shift (section 6.5.7 of
  ISO C99), and a value above 32767 stored into an `int16_t` wraps modulo
  2^16 (section 6.3.1.3 of ISO C99). Lemmas tie the bitwise
  forms (`(hi << 8) | lo`, `(v >> 8) & 0xff`, `v & 0xff`) to their
  arithmetic meaning and prove the byte-pair round trips.
- `Registers` (`registers.dfy`) holds the register addresses and
  configuration values, and the per-axis offset register pairs.
- `Transport` (`transport.dfy`) models the sensor as the driver sees it
  over the bus. A `Bus` object holds a 256-byte register file, a log of
  every transaction, and an oracle `busOk` that says whether transaction
  number *t* succeeds. Its `MemRead` and `MemWrite` replace the vendor's
  I2C calls.
- `Samples` (`samples.dfy`) decodes the 6-byte bursts into three signed
  16-bit values.
- `Offsets` (`offsets.dfy`) holds the range scaling of gyroscope and
  accelerometer offsets, the bytes written to a gyroscope offset pair, and
  the accelerometer read-modify-write with its bit-0 merge.
- `InitSequence` (`init_sequence.dfy`) specifies the initialisation as a
  pure function `Issue`. It issues a plan of register writes in order and
  stops after the first failure. Lemmas say which writes are issued, when
  the run succeeds, and what the registers hold afterwards.
- `Driver` (`driver.dfy`) holds the entry points as methods over `Bus` and
  the caller's `SensorData` record. Each method's postcondition ties the
  new register file, the new log and the caller's buffers to the pure
  functions above.

The three `setGyroOff` functions are one method with an `Axis` argument.
So are the three `setAccelOff` functions. The copies differ only in the
register pair (and, for the 16 g accelerometer range, in a floating-point
factor, which is an input here).

The model follows the driver's code in these points:

- `mpu6050_init` returns a plain `false` both for a failed bus read and for
  a wrong identity byte. It has no separate error kinds.
- `getRawData`, `readAccelOffsets` and the offset setters ignore the bus
  status. The model's methods return no error either. On a failed read the
  buffer holds arbitrary bytes, and the methods decode those.
- `mpu6500_readAccelOffsets` returns each pair as an unsigned value in
  0..65535. It does not sign-extend to a signed 16-bit bias.
- Unknown sensitivity ranges are passed through unscaled.
- The accelerometer update does not keep bit 0 of the low byte unchanged. It
  ORs the old bit 0 into the new low byte. A set bit stays set
  (`Offsets.AccelKeepsSetBit0`). A clear bit 0 takes whatever the subtraction
  produced (`Offsets.AccelClearBit0NotForced`).

## Model

| member | source | states |
|---|---|---|
| `Bits.AndLowMask` | mpu6050/mpu6050_lib.c:119-120 | `x & (2^k - 1)` keeps exactly the low k bits, `x % 2^k`; proved by induction over k |
| `Bits.OrBelow` | mpu6050/mpu6050_lib.c:69 | `a << k` OR-ed with `b` equals `a * 2^k + b` when b has fewer than k bits; proved by induction over k |
| `Bits.OrBit0` | mpu6050/mpu6050_lib.c:236 | OR-ing a 0/1 mask bit into a byte only sets bit 0 |
| `Bits.BeWord` | mpu6050/mpu6050_lib.c:192-194 | `hi << 8` OR-ed with `lo` is the big-endian word `hi * 256 + lo` |
| `Bits.HighByte` | mpu6050/mpu6050_lib.c:119 | `(v >> 8) & 0xff` on a two's complement `long` is `floor(v / 256) mod 256` for every v, negative ones included |
| `Bits.LowByte` | mpu6050/mpu6050_lib.c:120 | `v & 0xff` on a two's complement `long` is `v mod 256` |
| `Bits.ToInt16` | mpu6050/mpu6050_lib.h:8-9 | storing 0..65535 into an `int16_t` field gives the signed 16-bit value congruent to it modulo 2^16 |
| `Bits.CDiv` | mpu6050/mpu6050_lib.c:106 | C's `/` by a positive divisor: the quotient rounded toward zero, for negative dividends too |
| `Bits.SplitKeepsLow16` | mpu6050/mpu6050_lib.c:119-120 | the byte pair written for any value is its low 16 bits, high byte first |
| `Bits.WordRoundTrip` | mpu6050/mpu6050_lib.c:224-235 | splitting a word built from two bytes gives the same two bytes back |
| `Bits.Int16RoundTrip` | mpu6050/mpu6050_lib.c:119-120 | splitting an `int16_t` into bytes and decoding them gives the value back |
| `Bits.BytesRoundTrip` | mpu6050/mpu6050_lib.c:69-71 | decoding a byte pair as `int16_t` and splitting it again gives the same bytes |
| `Registers.GyroOffsetReg` | mpu6050/mpu6050_lib.c:121 | the gyroscope offset pair of axis X, Y, Z starts at 0x13, 0x15, 0x17 |
| `Registers.AccelOffsetReg` | mpu6050/mpu6050_lib.c:223 | the accelerometer offset pair of axis X, Y, Z starts at 0x06, 0x08, 0x0A |
| `Transport.Stored` | mpu6050/mpu6050_lib.c:121 | a write of n bytes from a register changes exactly those n registers, to the bytes sent |
| `Transport.Bus.MemRead` | mpu6050/mpu6050_lib.c:23 | a read is logged with its outcome, leaves the registers alone, and delivers their contents when it succeeds |
| `Transport.Bus.MemWrite` | mpu6050/mpu6050_lib.c:30 | a write is logged with its outcome and stores its bytes only when it succeeds |
| `Samples.DecodeAxis` | mpu6050/mpu6050_lib.c:69 | a raw axis value is the signed 16-bit value congruent to `hi * 256 + lo`, and re-encoding it gives hi and lo back |
| `Samples.DecodeBurst` | mpu6050/mpu6050_lib.c:69-71 | value i of a 6-byte burst comes from bytes 2i (high) and 2i+1 (low) |
| `Samples.BurstRoundTrip` | mpu6050/mpu6050_lib.c:75-77 | encoding the three decoded values gives the burst back |
| `Samples.ValuesRoundTrip` | mpu6050/mpu6050_lib.c:69-71 | decoding the encoding of three `int16_t` values gives them back |
| `Offsets.GyroScale` | mpu6050/mpu6050_lib.c:102-117 | range 250 and 500 give the offset divided by 4 and 2, rounded toward zero; 2000 doubles it; 1000 and every other range keep it |
| `Offsets.GyroOffsetBytes` | mpu6050/mpu6050_lib.c:118-120 | the two bytes written are the low 16 bits of the scaled offset, high byte first |
| `Offsets.GyroOffsetReadsBack` | mpu6050/mpu6050_lib.c:118-121 | a scaled offset that fits in 16 bits reads back from the pair unchanged |
| `Offsets.GyroScaleOdd` | mpu6050/mpu6050_lib.c:106-109 | with truncating division, opposite offsets scale to opposite values at every range |
| `Offsets.GyroScaleOfThousand` | mpu6050/mpu6050_lib.c:97-117 | an offset of 1000 becomes 250, 500, 1000, 2000 at ranges 250, 500, 1000, 2000 |
| `Offsets.AccelScale` | mpu6050/mpu6050_lib.c:200-213 | ranges 2, 4, 8 divide the offset by 8, 4, 2, rounded toward zero; 16 gives the float quotient, taken as given; any other range keeps the offset |
| `Offsets.AccelOffsetBytes` | mpu6050/mpu6050_lib.c:216-236 | the word written back is `(old - scaled) mod 2^16` in bits 15..1; bit 0 is 1 if the old low byte's bit 0 was 1 and otherwise the subtraction's bit 0 |
| `Offsets.MaskBitIsBit0` | mpu6050/mpu6050_lib.c:224-228 | `bias & 1` of the pair just read is bit 0 of its low byte |
| `Offsets.MergeBit0` | mpu6050/mpu6050_lib.c:236 | OR-ing the mask bit into the low byte changes only bit 0 of the word |
| `Offsets.AccelKeepsSetBit0` | mpu6050/mpu6050_lib.c:227-236 | when bit 0 of the old low byte is set, it is still set in the byte written |
| `Offsets.AccelClearBit0NotForced` | mpu6050/mpu6050_lib.c:232-236 | a clear bit 0 is not kept clear: pair 0x0000 minus 1 is written as 0xFF 0xFF |
| `InitSequence.Issue` | mpu6050/mpu6050_lib.c:29-56 | issues the write plan in order and stops after the first failed write; its contract only keeps the register file at 256 entries, and the three lemmas below state what it does |
| `InitSequence.Apply` | mpu6050/mpu6050_lib.c:29-52 | applying a plan's writes leaves every register the plan does not name unchanged |
| `InitSequence.IssueFollowsPlan` | mpu6050/mpu6050_lib.c:29-53 | the issued transactions are a prefix of the plan; write i carries plan write i's register and value as transaction t + i |
| `InitSequence.IssueStopsAtFirstFailure` | mpu6050/mpu6050_lib.c:31-54 | write i is issued exactly when all earlier writes succeeded, and the run succeeds exactly when all writes do |
| `InitSequence.IssueEffect` | mpu6050/mpu6050_lib.c:29-56 | afterwards the registers hold the effect of every successful write: the whole plan, or the plan up to the failed write |
| `InitSequence.InitPlanEffect` | mpu6050/mpu6050_lib.c:29-52 | the four init writes set 0x6B to 0x00, 0x19 to 0x07, 0x1B to 0x18, 0x1C to 0x18 and nothing else |
| `InitSequence.InitPlanIdempotent` | mpu6050/mpu6050_lib.c:29-52 | applying the init writes to an already configured register file changes nothing |
| `InitSequence.InitRunWrites` | mpu6050/mpu6050_lib.c:29-56 | the init writes succeed iff the four transactions do; then they are issued in the fixed order power, rate, gyro range, accel range, with the fixed values |
| `Driver.Init` | mpu6050/mpu6050_lib.c:20-62 | one identity read of 0x75; on a failed read or a byte other than 0x68 it returns false with no write; otherwise it runs the init plan, returns whether all writes succeeded and leaves registers and log as the plan's run says |
| `Driver.GetRawData` | mpu6050/mpu6050_lib.c:64-79 | two 6-byte reads at 0x3B and 0x43; the record's accelerometer and gyroscope values are the decoded bursts, which are the registers when the reads succeed |
| `Driver.SetGyroOffset` | mpu6050/mpu6050_lib.c:96-183 | one 2-byte write of the scaled offset's bytes to the axis's pair; only that pair changes, and only if the write succeeds |
| `Driver.ReadAccelOffsets` | mpu6050/mpu6050_lib.c:186-195 | three 2-byte reads at 0x06, 0x08, 0x0A; entries 0..2 become the unsigned words read; the rest of the array is untouched |
| `Driver.SetAccelOffset` | mpu6050/mpu6050_lib.c:198-331 | reads the axis's pair, then writes back the bit-0-merged difference; only that pair changes, and only if the write succeeds |
| `Driver.SensorData.constructor` | mpu6050/mpu6050_lib.h:7-14 | the caller's record holds two separate 3-element arrays of `int16_t` |

## Left out

- `mpu6050_getFloat` (mpu6050/mpu6050_lib.c:82-94) is left out. It only divides by 2048.0 and 16.4 and multiplies by 9.80665 in floating point, which this model does not represent. The record's float fields are left out with it.
- The 16 g accelerometer branch divides by the double 1.156 (X, Y) or 1.17 (Z) and truncates back to `long`. `Offsets.AccelScale` and `Driver.SetAccelOffset` take that quotient as an input, `quotient16`, and do not compute it.
- The vendor I2C calls are replaced by `Transport.Bus`. The device address 0x68 << 1 is kept as a constant only. The 1000 ms timeout is not modelled. The bus status is a boolean, because the driver only tests it against "OK".
- A failed write is assumed to leave the registers unchanged. The sensor's real behaviour on an aborted transfer is not part of this model.
- A failed read delivers arbitrary bytes; the C buffer is uninitialised stack memory. Later reads in the same call may in fact see an earlier read's bytes; the model does not narrow it down.
- Signed `long` overflow is not modelled. The model computes `off * 2` and `bias - off` exactly. Only the low 16 bits reach the register, and those match what 32-bit wrap-around gives.
- `mpu6050/mpu6050_lib.h` only declares the functions and the record. It is used for field types.
- A second driver variant does not appear in this source, so there is nothing to unify.
