/** Decoding of the eight data registers 0xF7..0xFE into the raw ADC values
    (BME280 datasheet, sections 5.4.7 to 5.4.9): a 20-bit pressure value in
    press_msb, press_lsb and the high nibble of press_xlsb, a 20-bit temperature
    value laid out the same way, and a 16-bit humidity value, most significant
    byte first. */
module AdcReadout {
  import opened Bytes
  import opened Registers

  datatype RawData = RawData(pressure: int, temperature: int, humidity: int)

  const ADC20_LIMIT: int := 0x10_0000
  const ADC16_LIMIT: int := 0x1_0000

  predicate InRange(raw: RawData)
  {
    0 <= raw.pressure < ADC20_LIMIT &&
    0 <= raw.temperature < ADC20_LIMIT &&
    0 <= raw.humidity < ADC16_LIMIT
  }

  /** `msb << 12 | lsb << 4 | xlsb >> 4`: the three fields occupy disjoint bits, so the
      value is their sum, and each byte can be read back from it. */
  function Adc20(msb: Byte, lsb: Byte, xlsb: Byte): (v: int)
    ensures v == msb * 0x1000 + lsb * 0x10 + xlsb / 0x10
    ensures 0 <= v < ADC20_LIMIT
    ensures v / 0x1000 == msb && (v / 0x10) % 0x100 == lsb && v % 0x10 == xlsb / 0x10
  {
    Adc20Fields(msb, lsb, xlsb);
    JsOr(JsOr(JsShl(msb, 12), JsShl(lsb, 4)), JsShr(xlsb, 4))
  }

  lemma Adc20Fields(msb: Byte, lsb: Byte, xlsb: Byte)
    ensures var v := JsOr(JsOr(JsShl(msb, 12), JsShl(lsb, 4)), JsShr(xlsb, 4));
      v == msb * 0x1000 + lsb * 0x10 + xlsb / 0x10 &&
      v / 0x1000 == msb && (v / 0x10) % 0x100 == lsb && v % 0x10 == xlsb / 0x10
  {
    Adc20Sum(msb, lsb, xlsb);
    Split20(msb, lsb, xlsb / 0x10);
  }

  lemma Adc20Sum(msb: Byte, lsb: Byte, xlsb: Byte)
    ensures JsOr(JsOr(JsShl(msb, 12), JsShl(lsb, 4)), JsShr(xlsb, 4)) ==
      msb * 0x1000 + lsb * 0x10 + xlsb / 0x10
  {
    Pow2Constants();
    var lo := JsShl(lsb, 4);
    assert lo == lsb * 0x10 by {
      ShiftOrDisjoint(lsb, 0, 4);
    }
    var hi := JsOr(JsShl(msb, 12), lo);
    assert hi == (msb * 0x100 + lsb) * 0x10 by {
      ShiftOrDisjoint(msb, lsb * 0x10, 12);
    }
    HighNibble(xlsb);
    ShiftOrDisjoint(msb * 0x100 + lsb, xlsb / 0x10, 4);
  }

  lemma Split20(msb: Byte, lsb: Byte, nib: int)
    requires 0 <= nib < 0x10
    ensures var v := msb * 0x1000 + lsb * 0x10 + nib;
      v / 0x1000 == msb && (v / 0x10) % 0x100 == lsb && v % 0x10 == nib
  {
    var v := msb * 0x1000 + lsb * 0x10 + nib;
    assert v / 0x10 == msb * 0x100 + lsb;
  }

  /** `msb << 8 | lsb`. */
  function Adc16(msb: Byte, lsb: Byte): (v: int)
    ensures v == msb * 0x100 + lsb
    ensures 0 <= v < ADC16_LIMIT
    ensures v / 0x100 == msb && v % 0x100 == lsb
  {
    Pow2Constants();
    ShiftOrDisjoint(msb, lsb, 8);
    JsOr(JsShl(msb, 8), lsb)
  }

  /** The decode part of readRawData: the register block to the three ADC values. */
  function DecodeRawData(regs: seq<Byte>): (raw: RawData)
    requires |regs| == DATA_REGS_LEN
    ensures InRange(raw)
  {
    RawData(
      Adc20(regs[0], regs[1], regs[2]),
      Adc20(regs[3], regs[4], regs[5]),
      Adc16(regs[6], regs[7]))
  }

  /** The three register bytes that hold a 20-bit value:
      `v >> 12`, `(v >> 4) & 0xff` and `(v & 0xf) << 4`. */
  function EncodeAdc20(v: int): (bs: seq<Byte>)
    requires 0 <= v < ADC20_LIMIT
    ensures |bs| == 3 && bs[2] % 0x10 == 0
  {
    [v / 0x1000, (v / 0x10) % 0x100, (v % 0x10) * 0x10]
  }

  /** The register block a device holding `raw` would deliver (unused low nibbles zero). */
  function EncodeRawData(raw: RawData): (regs: seq<Byte>)
    requires InRange(raw)
    ensures |regs| == DATA_REGS_LEN
  {
    EncodeAdc20(raw.pressure) + EncodeAdc20(raw.temperature) +
      [raw.humidity / 0x100, raw.humidity % 0x100]
  }

  lemma Adc20RoundTrip(v: int)
    requires 0 <= v < ADC20_LIMIT
    ensures var bs := EncodeAdc20(v); Adc20(bs[0], bs[1], bs[2]) == v
  {
    var bs := EncodeAdc20(v);
    assert bs[2] / 0x10 == v % 0x10;
    assert v == (v / 0x10) * 0x10 + v % 0x10;
    assert v / 0x10 == (v / 0x1000) * 0x100 + (v / 0x10) % 0x100;
  }

  /** Decoding what the encoder lays out gives back every raw value in range. */
  lemma DecodeEncode(raw: RawData)
    requires InRange(raw)
    ensures DecodeRawData(EncodeRawData(raw)) == raw
  {
    var regs := EncodeRawData(raw);
    Adc20RoundTrip(raw.pressure);
    Adc20RoundTrip(raw.temperature);
    assert regs[0..3] == EncodeAdc20(raw.pressure);
    assert regs[3..6] == EncodeAdc20(raw.temperature);
  }

  /** The decoder keeps every bit of the block except the low nibbles of press_xlsb
      and temp_xlsb, which the device leaves unused. */
  lemma EncodeDecode(regs: seq<Byte>)
    requires |regs| == DATA_REGS_LEN
    ensures EncodeRawData(DecodeRawData(regs)) ==
      regs[2 := regs[2] / 0x10 * 0x10][5 := regs[5] / 0x10 * 0x10]
  {
    var raw := DecodeRawData(regs);
    var back := EncodeRawData(raw);
    var want := regs[2 := regs[2] / 0x10 * 0x10][5 := regs[5] / 0x10 * 0x10];
    assert back[0..3] == EncodeAdc20(raw.pressure);
    assert back[3..6] == EncodeAdc20(raw.temperature);
    forall i | 0 <= i < DATA_REGS_LEN
      ensures back[i] == want[i]
    {
    }
  }

  /** Two blocks decode to the same raw values exactly when they differ at most in
      the unused low nibbles of press_xlsb and temp_xlsb. */
  lemma DecodeInjective(a: seq<Byte>, b: seq<Byte>)
    requires |a| == DATA_REGS_LEN && |b| == DATA_REGS_LEN
    ensures DecodeRawData(a) == DecodeRawData(b) <==>
      a[2 := a[2] / 0x10 * 0x10][5 := a[5] / 0x10 * 0x10] ==
      b[2 := b[2] / 0x10 * 0x10][5 := b[5] / 0x10 * 0x10]
  {
    EncodeDecode(a);
    EncodeDecode(b);
    if a[2 := a[2] / 0x10 * 0x10][5 := a[5] / 0x10 * 0x10] ==
       b[2 := b[2] / 0x10 * 0x10][5 := b[5] / 0x10 * 0x10] {
      forall i | 0 <= i < DATA_REGS_LEN && i != 2 && i != 5 ensures a[i] == b[i] {
        assert a[2 := a[2] / 0x10 * 0x10][5 := a[5] / 0x10 * 0x10][i] == a[i];
      }
      assert a[2] / 0x10 == b[2] / 0x10 by {
        assert a[2 := a[2] / 0x10 * 0x10][5 := a[5] / 0x10 * 0x10][2] == a[2] / 0x10 * 0x10;
      }
      assert a[5] / 0x10 == b[5] / 0x10 by {
        assert a[2 := a[2] / 0x10 * 0x10][5 := a[5] / 0x10 * 0x10][5] == a[5] / 0x10 * 0x10;
      }
    }
  }
}
