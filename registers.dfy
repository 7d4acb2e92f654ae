/** The BME280 register map as the driver uses it: register addresses, block
    lengths, fixed command values and the bit fields of the control registers. */
module Registers {
  import opened Bytes

  // Register addresses
  const TP_COEFFICIENT_REGS: Byte := 0x88
  const CHIP_ID_REG: Byte := 0xd0
  const RESET_REG: Byte := 0xe0
  const H_COEFFICIENT_REGS: Byte := 0xe1
  const CTRL_HUM_REG: Byte := 0xf2
  const STATUS_REG: Byte := 0xf3
  const CTRL_MEAS_REG: Byte := 0xf4
  const CONFIG_REG: Byte := 0xf5
  const DATA_REGS: Byte := 0xf7

  // Lengths of the block reads
  const TP_COEFFICIENT_REGS_LEN: nat := 26
  const H_COEFFICIENT_REGS_LEN: nat := 7
  const DATA_REGS_LEN: nat := 8

  // CHIP_ID_REG
  const CHIP_ID: Byte := 0x60

  // RESET_REG
  const SOFT_RESET_COMMAND: Byte := 0xb6

  // CTRL_HUM_REG
  const OSRS_H_BITS: bv8 := 0x07
  const OSRS_H_SKIPPED: bv8 := 0x00
  const OSRS_H_X1: bv8 := 0x01
  const OSRS_H_X2: bv8 := 0x02
  const OSRS_H_X4: bv8 := 0x03
  const OSRS_H_X8: bv8 := 0x04
  const OSRS_H_X16: bv8 := 0x05

  // STATUS_REG
  const IM_UPDATE_BIT: bv8 := 0x01
  const MEASURING_BIT: bv8 := 0x08

  // CTRL_MEAS_REG
  const MODE_BITS: bv8 := 0x03
  const MODE_SLEEP: bv8 := 0x00
  const MODE_FORCED: bv8 := 0x01
  const MODE_NORMAL: bv8 := 0x03
  const OSRS_P_BITS: bv8 := 0x1c
  const OSRS_P_SKIPPED: bv8 := 0x00
  const OSRS_P_X1: bv8 := 0x04
  const OSRS_P_X2: bv8 := 0x08
  const OSRS_P_X4: bv8 := 0x0c
  const OSRS_P_X8: bv8 := 0x10
  const OSRS_P_X16: bv8 := 0x14
  const OSRS_T_BITS: bv8 := 0xe0
  const OSRS_T_SKIPPED: bv8 := 0x00
  const OSRS_T_X1: bv8 := 0x20
  const OSRS_T_X2: bv8 := 0x40
  const OSRS_T_X4: bv8 := 0x60
  const OSRS_T_X8: bv8 := 0x80
  const OSRS_T_X16: bv8 := 0xa0

  // CONFIG_REG
  const FILTER_COEFF_BITS: bv8 := 0x1c
  const FILTER_COEFF_OFF: bv8 := 0x00
  const FILTER_COEFF_2: bv8 := 0x04
  const FILTER_COEFF_4: bv8 := 0x08
  const FILTER_COEFF_8: bv8 := 0x0c
  const FILTER_COEFF_16: bv8 := 0x10
}
