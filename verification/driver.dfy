/** The driver's entry points: identification and configuration, raw sample
    acquisition, and the offset-calibration writes. Each is a method on the
    bus model; none of them looks at the outcome of a transaction except
    the initialisation, as in the driver itself. */
module Driver {
  import opened Bits
  import opened Registers
  import opened Transport
  import opened Samples
  import opened Offsets
  import opened InitSequence

  /** The caller's sample record: raw accelerometer and gyroscope values,
      X, Y, Z. */
  class SensorData {
    const rawA: array<int16>
    const rawW: array<int16>

    ghost predicate Valid()
      reads this
    {
      rawA.Length == 3 && rawW.Length == 3 && rawA != rawW
    }

    constructor ()
      ensures Valid() && fresh(rawA) && fresh(rawW)
    {
      rawA := new int16[3];
      rawW := new int16[3];
    }
  }

  /** Identifies the sensor, then writes the configuration plan, stopping at
      the first failed write. Returns true only if the identity read
      succeeded, gave 0x68, and all four writes succeeded. */
  method Init(bus: Bus) returns (ok: bool)
    requires bus.Valid()
    modifies bus
    ensures bus.Valid()
    ensures |bus.log| > |old(bus.log)| && bus.log[..|old(bus.log)|] == old(bus.log)
    ensures IsRead(bus.log[|old(bus.log)|], WHO_AM_I_REG, 1, old(bus.regs), bus.busOk(|old(bus.log)|))
    ensures !Identified(old(bus.regs), bus.busOk, |old(bus.log)|) ==>
              !ok && bus.regs == old(bus.regs) && |bus.log| == |old(bus.log)| + 1
    ensures Identified(old(bus.regs), bus.busOk, |old(bus.log)|) ==>
              ok == Issue(old(bus.regs), INIT_PLAN, bus.busOk, |old(bus.log)| + 1).ok
    ensures Identified(old(bus.regs), bus.busOk, |old(bus.log)|) ==>
              bus.regs == Issue(old(bus.regs), INIT_PLAN, bus.busOk, |old(bus.log)| + 1).regs
    ensures Identified(old(bus.regs), bus.busOk, |old(bus.log)|) ==>
              bus.log[|old(bus.log)| + 1..] == Issue(old(bus.regs), INIT_PLAN, bus.busOk, |old(bus.log)| + 1).trace
  {
    var status, id := bus.MemRead(WHO_AM_I_REG, 1);
    if !status {
      return false;
    }
    if id[0] == WHO_AM_I_VALUE {
      ghost var start := |bus.log|;
      ghost var goal := Issue(bus.regs, INIT_PLAN, bus.busOk, start);
      ghost var head := bus.log;
      assert Remaining(goal, bus.regs, bus.log, bus.busOk, start, INIT_PLAN);

      status := WriteNext(bus, PWR_MGMT_1_REG, PWR_MGMT_1_WAKE, goal, start, INIT_PLAN);
      assert bus.log[..start] == head;
      if !status {
        return false;
      }
      status := WriteNext(bus, SMPRT_DIV_REG, SMPRT_DIV_1KHZ, goal, start, INIT_PLAN[1..]);
      assert bus.log[..start] == head;
      if !status {
        return false;
      }
      status := WriteNext(bus, GYRO_CONFIG_REG, GYRO_FS_2000, goal, start, INIT_PLAN[2..]);
      assert bus.log[..start] == head;
      if !status {
        return false;
      }
      status := WriteNext(bus, ACCEL_CONFIG_REG, ACCEL_FS_16G, goal, start, INIT_PLAN[3..]);
      assert bus.log[..start] == head;
      if !status {
        return false;
      }
      assert INIT_PLAN[3..][1..] == [];
      return true;
    } else {
      return false;
    }
  }

  /** One configuration write of the initialisation: writes `value` to
      `reg`, the next write of the plan `rest`, and keeps the run `goal` of
      the whole plan in step with the bus. */
  method WriteNext(bus: Bus, reg: uint8, value: uint8, ghost goal: Run, ghost start: nat,
                   ghost rest: seq<RegWrite>) returns (ok: bool)
    requires bus.Valid() && rest != [] && rest[0] == RegWrite(reg, value)
    requires Remaining(goal, bus.regs, bus.log, bus.busOk, start, rest)
    modifies bus
    ensures bus.Valid() && ok == bus.busOk(|old(bus.log)|)
    ensures |bus.log| == |old(bus.log)| + 1 && bus.log[..|old(bus.log)|] == old(bus.log)
    ensures start <= |old(bus.log)| && bus.log[..start] == old(bus.log)[..start]
    ensures ok ==> Remaining(goal, bus.regs, bus.log, bus.busOk, start, rest[1..])
    ensures !ok ==> start <= |bus.log| && goal == Run(false, bus.regs, bus.log[start..])
  {
    ghost var regs, log := bus.regs, bus.log;
    ok := bus.MemWrite(reg, [value]);
    Advance(goal, regs, log, bus.busOk, start, rest);
  }

  /** The identity read, transaction number `t`, succeeds and finds the
      MPU-6050's identity byte. */
  ghost predicate Identified(regs: seq<uint8>, busOk: nat -> bool, t: nat)
    requires |regs| == 256
  {
    busOk(t) && regs[WHO_AM_I_REG] == WHO_AM_I_VALUE
  }

  /** Reads the accelerometer and the gyroscope bursts and stores the three
      decoded values of each into the record, whatever the outcome of the
      reads. */
  method GetRawData(bus: Bus, data: SensorData)
    requires bus.Valid() && data.Valid()
    modifies bus, data.rawA, data.rawW
    ensures bus.Valid() && bus.regs == old(bus.regs)
    ensures var t := |old(bus.log)|;
            && |bus.log| == t + 2 && bus.log[..t] == old(bus.log)
            && IsRead(bus.log[t], ACCEL_XOUT_H_REG, 6, bus.regs, bus.busOk(t))
            && IsRead(bus.log[t + 1], GYRO_XOUT_H_REG, 6, bus.regs, bus.busOk(t + 1))
            && data.rawA[..] == DecodeBurst(bus.log[t].data)
            && data.rawW[..] == DecodeBurst(bus.log[t + 1].data)
  {
    var status, raw := bus.MemRead(ACCEL_XOUT_H_REG, 6);
    data.rawA[0] := DecodeAxis(raw[0], raw[1]);
    data.rawA[1] := DecodeAxis(raw[2], raw[3]);
    data.rawA[2] := DecodeAxis(raw[4], raw[5]);

    status, raw := bus.MemRead(GYRO_XOUT_H_REG, 6);
    data.rawW[0] := DecodeAxis(raw[0], raw[1]);
    data.rawW[1] := DecodeAxis(raw[2], raw[3]);
    data.rawW[2] := DecodeAxis(raw[4], raw[5]);
  }

  /** Writes the scaled gyroscope offset of `axis` to its register pair,
      overwriting it. */
  method SetGyroOffset(bus: Bus, axis: Axis, off: int32, range: int16)
    requires bus.Valid()
    modifies bus
    ensures bus.Valid()
    ensures var t := |old(bus.log)|;
            var bytes := GyroOffsetBytes(off, range);
            && bus.log == old(bus.log) + [Write(GyroOffsetReg(axis), bytes, bus.busOk(t))]
            && bus.regs == if bus.busOk(t) then Stored(old(bus.regs), GyroOffsetReg(axis), bytes)
                           else old(bus.regs)
  {
    var bytes := GyroOffsetBytes(off, range);
    var status := bus.MemWrite(GyroOffsetReg(axis), bytes);
  }

  /** Reads the three accelerometer offset pairs and stores each as an
      unsigned 16-bit value into the first three entries of `offsets`,
      whatever the outcome of the reads. */
  method ReadAccelOffsets(bus: Bus, offsets: array<int>)
    requires bus.Valid() && offsets.Length >= 3
    modifies bus, offsets
    ensures bus.Valid() && bus.regs == old(bus.regs)
    ensures var t := |old(bus.log)|;
            && |bus.log| == t + 3 && bus.log[..t] == old(bus.log)
            && IsRead(bus.log[t], ACCEL_OFFSET_REG, 2, bus.regs, bus.busOk(t))
            && IsRead(bus.log[t + 1], ACCEL_OFFSET_REG + 2, 2, bus.regs, bus.busOk(t + 1))
            && IsRead(bus.log[t + 2], ACCEL_OFFSET_REG + 4, 2, bus.regs, bus.busOk(t + 2))
            && offsets[0] == BeWord(bus.log[t].data[0], bus.log[t].data[1])
            && offsets[1] == BeWord(bus.log[t + 1].data[0], bus.log[t + 1].data[1])
            && offsets[2] == BeWord(bus.log[t + 2].data[0], bus.log[t + 2].data[1])
    ensures offsets[3..] == old(offsets[3..])
  {
    var statusX, x := bus.MemRead(ACCEL_OFFSET_REG, 2);
    var statusY, y := bus.MemRead(ACCEL_OFFSET_REG + 2, 2);
    var statusZ, z := bus.MemRead(ACCEL_OFFSET_REG + 4, 2);
    offsets[0] := BeWord(x[0], x[1]);
    offsets[1] := BeWord(y[0], y[1]);
    offsets[2] := BeWord(z[0], z[1]);
  }

  /** Read-modify-write of the accelerometer offset pair of `axis`: reads
      the pair, subtracts the scaled offset, keeps bit 0 of the old low
      byte, and writes the pair back, whatever the outcome of the read.
      `quotient16` is the driver's floating-point quotient for the 16 g
      range, taken as given. */
  method SetAccelOffset(bus: Bus, axis: Axis, off: int32, range: int16, quotient16: int32)
    requires bus.Valid()
    modifies bus
    ensures bus.Valid()
    ensures var t := |old(bus.log)|;
            var reg := AccelOffsetReg(axis);
            && |bus.log| == t + 2 && bus.log[..t] == old(bus.log)
            && IsRead(bus.log[t], reg, 2, old(bus.regs), bus.busOk(t))
            && var bytes := AccelOffsetBytes(bus.log[t].data, AccelScale(off, range, quotient16));
               && bus.log[t + 1] == Write(reg, bytes, bus.busOk(t + 1))
               && bus.regs == if bus.busOk(t + 1) then Stored(old(bus.regs), reg, bytes)
                              else old(bus.regs)
  {
    var scaled := AccelScale(off, range, quotient16);
    var reg := AccelOffsetReg(axis);
    var status, current := bus.MemRead(reg, 2);
    var bytes := AccelOffsetBytes(current, scaled);
    status := bus.MemWrite(reg, bytes);
  }
}
