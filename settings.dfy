/** The register values configureSettings writes (BME280 datasheet, sections
    5.4.3, 5.4.5 and 5.4.6). The driver computes ctrl_hum and ctrl_meas by
    read-modify-write with JavaScript's 32-bit `&`, `~` and `|`. They are written
    here on 8-bit vectors, and CtrlHumMatchesJs and CtrlMeasMatchesJs prove that
    the same expressions on 32-bit vectors, as JavaScript evaluates them, give the
    same values on every byte read. */
module Settings {
  import opened Bytes
  import opened Registers

  /** `(ctrlHumReg & ~OSRS_H_BITS) | OSRS_H_X1`: the osrs_h field (bits 0..2) becomes 001,
      humidity oversampling x1, and bits 3..7 keep what was read. */
  function CtrlHumValue(ctrlHum: Byte): (r: Byte)
    ensures r % 8 == 1
    ensures r / 8 == ctrlHum / 8
  {
    CtrlHumBits(Bits(ctrlHum));
    ((Bits(ctrlHum) & !OSRS_H_BITS) | OSRS_H_X1) as int
  }

  lemma CtrlHumBits(prev: bv8)
    ensures ((prev & !OSRS_H_BITS) | OSRS_H_X1) as int == (prev as int / 8) * 8 + 1
  {
  }

  /** `(ctrlMessReg & ~(OSRS_T_BITS | OSRS_P_BITS)) | OSRS_T_X2 | OSRS_P_X16 | MODE_NORMAL`.
      The masks cover the oversampling fields and MODE_NORMAL sets both mode bits,
      so nothing of the byte read survives: the value is always 0x57. */
  function CtrlMeasValue(ctrlMeas: Byte): (r: Byte)
    ensures r == 0x57
    ensures Bits(r) & OSRS_T_BITS == OSRS_T_X2
    ensures Bits(r) & OSRS_P_BITS == OSRS_P_X16
    ensures Bits(r) & MODE_BITS == MODE_NORMAL
  {
    ((Bits(ctrlMeas) & !(OSRS_T_BITS | OSRS_P_BITS)) | OSRS_T_X2 | OSRS_P_X16 | MODE_NORMAL) as int
  }

  /** `(ctrlHumReg & ~OSRS_H_BITS) | OSRS_H_X1` with JavaScript's 32-bit operators, on
      32-bit vectors: `~0x07` is 0xfffffff8 (-8 as a signed integer), and the result,
      below 0x100, reads the same signed or unsigned. It is CtrlHumValue. */
  lemma CtrlHumMatchesJs(ctrlHum: Byte)
    ensures ((Bits(ctrlHum) as bv32 & !(OSRS_H_BITS as bv32)) | OSRS_H_X1 as bv32) as int
            == CtrlHumValue(ctrlHum)
  {
  }

  /** The driver's ctrl_meas expression on 32-bit vectors: `~(0xe0 | 0x1c)` is 0xffffff03,
      which keeps only the mode bits, and the ORs then set all three fields. It is
      CtrlMeasValue. */
  lemma CtrlMeasMatchesJs(ctrlMeas: Byte)
    ensures ((Bits(ctrlMeas) as bv32 & !(OSRS_T_BITS as bv32 | OSRS_P_BITS as bv32))
             | OSRS_T_X2 as bv32 | OSRS_P_X16 as bv32 | MODE_NORMAL as bv32) as int
            == CtrlMeasValue(ctrlMeas)
  {
  }

  /** The value written to config: IIR filter coefficient 16, standby 0.5 ms, SPI 3-wire off. */
  const CONFIG_VALUE: Byte := FILTER_COEFF_16 as int

  /** Writing the ctrl_hum value computed from a value already written gives it again. */
  lemma CtrlHumIdempotent(ctrlHum: Byte)
    ensures CtrlHumValue(CtrlHumValue(ctrlHum)) == CtrlHumValue(ctrlHum)
  {
  }

  /** The config byte selects filter x16 (bits 2..4 = 100), t_sb = 000 and spi3w_en = 0. */
  lemma ConfigValueFields()
    ensures CONFIG_VALUE == 0x10
    ensures Bits(CONFIG_VALUE) & FILTER_COEFF_BITS == FILTER_COEFF_16
    ensures CONFIG_VALUE / 32 == 0 && CONFIG_VALUE % 2 == 0
  {
  }
}
