/** Register map of the MPU-6050 as the driver uses it, and the values the
    driver writes during initialisation. */
module Registers {
  import opened Bits

  /** 7-bit bus address 0x68, shifted into the 8-bit address field. */
  const MPU6050_ADDRESS: uint8 := 0x68 * 2

  const WHO_AM_I_REG: uint8 := 0x75
  const PWR_MGMT_1_REG: uint8 := 0x6B
  const SMPRT_DIV_REG: uint8 := 0x19
  const GYRO_CONFIG_REG: uint8 := 0x1B
  const ACCEL_CONFIG_REG: uint8 := 0x1C

  /** First register of the 6-byte accelerometer and gyroscope bursts. */
  const ACCEL_XOUT_H_REG: uint8 := 0x3B
  const GYRO_XOUT_H_REG: uint8 := 0x43

  /** First register of the gyroscope and accelerometer offset pairs; the
      Y and Z pairs follow 2 and 4 registers later. */
  const GYRO_OFFSET_REG: uint8 := 0x13
  const ACCEL_OFFSET_REG: uint8 := 0x06

  /** The byte the identity register holds on an MPU-6050. */
  const WHO_AM_I_VALUE: uint8 := 0x68

  /** Power management: wake up, internal oscillator. */
  const PWR_MGMT_1_WAKE: uint8 := 0x00
  /** Sample rate = 8 kHz / (1 + 7) = 1 kHz. */
  const SMPRT_DIV_1KHZ: uint8 := 0x07
  /** Full-scale select bits for +-2000 deg/s. */
  const GYRO_FS_2000: uint8 := 0x18
  /** Full-scale select bits for +-16 g. */
  const ACCEL_FS_16G: uint8 := 0x18

  datatype Axis = X | Y | Z

  function AxisIndex(axis: Axis): (i: nat)
    ensures i < 3
  {
    match axis
    case X => 0
    case Y => 1
    case Z => 2
  }

  /** High register of the gyroscope offset pair of `axis`. */
  function GyroOffsetReg(axis: Axis): (r: uint8)
    ensures r == GYRO_OFFSET_REG + 2 * AxisIndex(axis)
  {
    match axis
    case X => GYRO_OFFSET_REG
    case Y => GYRO_OFFSET_REG + 2
    case Z => GYRO_OFFSET_REG + 4
  }

  /** High register of the accelerometer offset pair of `axis`. */
  function AccelOffsetReg(axis: Axis): (r: uint8)
    ensures r == ACCEL_OFFSET_REG + 2 * AxisIndex(axis)
  {
    match axis
    case X => ACCEL_OFFSET_REG
    case Y => ACCEL_OFFSET_REG + 2
    case Z => ACCEL_OFFSET_REG + 4
  }
}
