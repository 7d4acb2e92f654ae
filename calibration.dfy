/** The factory trimming parameters (BME280 datasheet, section 4.2.2, table 16):
    twelve temperature and pressure coefficients in the 26-byte block at 0x88
    (0xA0 is reserved, dig_H1 is at 0xA1) and six humidity coefficients in the
    7-byte block at 0xE1, two of which are 12-bit signed values sharing the
    nibbles of the byte at 0xE5. */
module Calibration {
  import opened Bytes
  import opened Registers

  datatype Coefficients = Coefficients(
    t1: int, t2: int, t3: int,
    p1: int, p2: int, p3: int, p4: int, p5: int, p6: int, p7: int, p8: int, p9: int,
    h1: int, h2: int, h3: int, h4: int, h5: int, h6: int)

  /** The two blocks as the device holds them. */
  datatype CoefficientRegs = CoefficientRegs(tp: seq<Byte>, h: seq<Byte>)

  /** Offset, in the 0x88 block, of the reserved register 0xA0 that no coefficient uses. */
  const RESERVED_OFFSET: nat := 24

  predicate IsS16(v: int) { -0x8000 <= v <= 0x7FFF }
  predicate IsU16(v: int) { 0 <= v <= 0xFFFF }
  predicate IsS12(v: int) { -0x800 <= v <= 0x7FF }
  predicate IsU8(v: int) { 0 <= v <= 0xFF }
  predicate IsS8(v: int) { -0x80 <= v <= 0x7F }

  /** The range each coefficient's register width allows. */
  predicate InRange(c: Coefficients)
  {
    IsU16(c.t1) && IsS16(c.t2) && IsS16(c.t3) &&
    IsU16(c.p1) && IsS16(c.p2) && IsS16(c.p3) && IsS16(c.p4) && IsS16(c.p5) &&
    IsS16(c.p6) && IsS16(c.p7) && IsS16(c.p8) && IsS16(c.p9) &&
    IsU8(c.h1) && IsS16(c.h2) && IsU8(c.h3) && IsS12(c.h4) && IsS12(c.h5) && IsS8(c.h6)
  }

  /** dig_H4: `(readInt8(3) * 16) | (h[4] & 0xf)`, the 12-bit two's-complement value whose
      high eight bits are the byte at 0xE4 and whose low nibble is the low nibble of 0xE5. */
  function PackedH4(e4: Byte, e5: Byte): (v: int)
    ensures v == TwosComplement(e4 * 0x10 + e5 % 0x10, 0x1000)
    ensures IsS12(v) && v % 0x10 == e5 % 0x10
  {
    LowNibble(e5);
    PackedNibbles(e4, e5 % 0x10);
    JsOr(S8(e4) * 0x10, JsAnd(e5, 0xf))
  }

  /** dig_H5: `(readInt8(5) * 16) | (h[4] >> 4)`, the 12-bit two's-complement value whose
      high eight bits are the byte at 0xE6 and whose low nibble is the high nibble of 0xE5. */
  function PackedH5(e6: Byte, e5: Byte): (v: int)
    ensures v == TwosComplement(e6 * 0x10 + e5 / 0x10, 0x1000)
    ensures IsS12(v) && v % 0x10 == e5 / 0x10
  {
    HighNibble(e5);
    PackedNibbles(e6, e5 / 0x10);
    JsOr(S8(e6) * 0x10, JsShr(e5, 4))
  }

  /** A signed byte shifted up a nibble, plus a nibble, is the 12-bit two's-complement
      value of the byte followed by the nibble. */
  lemma PackedValue(hi: Byte, nib: int)
    requires 0 <= nib < 0x10
    ensures TwosComplement(hi * 0x10 + nib, 0x1000) == S8(hi) * 0x10 + nib
  {
  }

  /** What PackedH4 and PackedH5 share: OR-ing a nibble into a signed byte times 16. */
  lemma PackedNibbles(hi: Byte, nib: int)
    requires 0 <= nib < 0x10
    ensures var v := JsOr(S8(hi) * 0x10, nib);
      v == TwosComplement(hi * 0x10 + nib, 0x1000) && IsS12(v) && v % 0x10 == nib
  {
    var s8 := S8(hi);
    SignedNibbleOr(s8, nib);
    PackedValue(hi, nib);
    Mod16Of(s8 * 0x10 + nib, s8, nib);
  }

  /** The parse at the end of readCoefficients. */
  function ParseCoefficients(tp: seq<Byte>, h: seq<Byte>): (c: Coefficients)
    requires |tp| == TP_COEFFICIENT_REGS_LEN && |h| == H_COEFFICIENT_REGS_LEN
    ensures InRange(c)
    ensures c.t1 % 0x100 == tp[0] && c.t1 / 0x100 == tp[1]
    ensures c.p1 % 0x100 == tp[6] && c.p1 / 0x100 == tp[7]
    ensures c.h1 == tp[25] && c.h3 == h[2]
    ensures c.h4 % 0x10 == h[4] % 0x10 && c.h5 % 0x10 == h[4] / 0x10
  {
    Coefficients(
      U16LE(tp[0], tp[1]), S16LE(tp[2], tp[3]), S16LE(tp[4], tp[5]),
      U16LE(tp[6], tp[7]), S16LE(tp[8], tp[9]), S16LE(tp[10], tp[11]),
      S16LE(tp[12], tp[13]), S16LE(tp[14], tp[15]), S16LE(tp[16], tp[17]),
      S16LE(tp[18], tp[19]), S16LE(tp[20], tp[21]), S16LE(tp[22], tp[23]),
      U8(tp[25]), S16LE(h[0], h[1]), U8(h[2]),
      PackedH4(h[3], h[4]), PackedH5(h[5], h[4]), S8(h[6]))
  }

  /** The register contents a device with coefficients c holds (0xA0 read as zero). */
  function EncodeCoefficients(c: Coefficients): (regs: CoefficientRegs)
    requires InRange(c)
    ensures |regs.tp| == TP_COEFFICIENT_REGS_LEN && |regs.h| == H_COEFFICIENT_REGS_LEN
  {
    CoefficientRegs(
      EncodeLE16(c.t1) + EncodeLE16(c.t2) + EncodeLE16(c.t3) +
      EncodeLE16(c.p1) + EncodeLE16(c.p2) + EncodeLE16(c.p3) + EncodeLE16(c.p4) +
      EncodeLE16(c.p5) + EncodeLE16(c.p6) + EncodeLE16(c.p7) + EncodeLE16(c.p8) +
      EncodeLE16(c.p9) + [0, c.h1],
      EncodeLE16(c.h2) +
      [c.h3, (c.h4 / 0x10) % 0x100, c.h4 % 0x10 + 0x10 * (c.h5 % 0x10),
       (c.h5 / 0x10) % 0x100, Encode8(c.h6)])
  }

  lemma S12Split(v: int)
    requires IsS12(v)
    ensures TwosComplement(((v / 0x10) % 0x100) * 0x10 + v % 0x10, 0x1000) == v
  {
  }

  /** Parsing the registers of a device gives back its coefficients. */
  lemma ParseEncode(c: Coefficients)
    requires InRange(c)
    ensures var regs := EncodeCoefficients(c); ParseCoefficients(regs.tp, regs.h) == c
  {
    var regs := EncodeCoefficients(c);
    var tp, h := regs.tp, regs.h;
    U16LERoundTrip(c.t1);
    U16LERoundTrip(c.p1);
    S16LERoundTrip(c.t2);
    S16LERoundTrip(c.t3);
    S16LERoundTrip(c.p2);
    S16LERoundTrip(c.p3);
    S16LERoundTrip(c.p4);
    S16LERoundTrip(c.p5);
    S16LERoundTrip(c.p6);
    S16LERoundTrip(c.p7);
    S16LERoundTrip(c.p8);
    S16LERoundTrip(c.p9);
    S16LERoundTrip(c.h2);
    S8RoundTrip(c.h6);
    S12Split(c.h4);
    S12Split(c.h5);
    assert h[4] % 0x10 == c.h4 % 0x10 && h[4] / 0x10 == c.h5 % 0x10;
  }

  lemma LE16OfS16(lo: Byte, hi: Byte)
    ensures EncodeLE16(S16LE(lo, hi)) == [lo, hi]
  {
    var u := U16LE(lo, hi);
    assert S16LE(lo, hi) % 0x10000 == u;
  }

  lemma LE16OfU16(lo: Byte, hi: Byte)
    ensures EncodeLE16(U16LE(lo, hi)) == [lo, hi]
  {
    var u := U16LE(lo, hi);
    assert u % 0x10000 == u;
  }

  /** The 0x88 block: every register but the reserved 0xA0 is rebuilt. */
  lemma EncodeParseTp(tp: seq<Byte>, h: seq<Byte>)
    requires |tp| == TP_COEFFICIENT_REGS_LEN && |h| == H_COEFFICIENT_REGS_LEN
    ensures EncodeCoefficients(ParseCoefficients(tp, h)).tp == tp[RESERVED_OFFSET := 0]
  {
    LE16OfU16(tp[0], tp[1]);
    LE16OfS16(tp[2], tp[3]);
    LE16OfS16(tp[4], tp[5]);
    LE16OfU16(tp[6], tp[7]);
    LE16OfS16(tp[8], tp[9]);
    LE16OfS16(tp[10], tp[11]);
    LE16OfS16(tp[12], tp[13]);
    LE16OfS16(tp[14], tp[15]);
    LE16OfS16(tp[16], tp[17]);
    LE16OfS16(tp[18], tp[19]);
    LE16OfS16(tp[20], tp[21]);
    LE16OfS16(tp[22], tp[23]);
  }

  /** The 0xE1 block is rebuilt, including the byte whose nibbles dig_H4 and dig_H5 share. */
  lemma EncodeParseH(tp: seq<Byte>, h: seq<Byte>)
    requires |tp| == TP_COEFFICIENT_REGS_LEN && |h| == H_COEFFICIENT_REGS_LEN
    ensures EncodeCoefficients(ParseCoefficients(tp, h)).h == h
  {
    LE16OfS16(h[0], h[1]);
    PackedRoundTrip(h[3], h[4], h[5]);
  }

  /** Splitting dig_H4 and dig_H5 back into registers gives the three bytes they came from. */
  lemma PackedRoundTrip(e4: Byte, e5: Byte, e6: Byte)
    ensures var v4, v5 := PackedH4(e4, e5), PackedH5(e6, e5);
      (v4 / 0x10) % 0x100 == e4 && (v5 / 0x10) % 0x100 == e6 && v4 % 0x10 + 0x10 * (v5 % 0x10) == e5
  {
    PackedSplit(e4, e5 % 0x10);
    PackedSplit(e6, e5 / 0x10);
  }

  /** The high byte and the nibble of a packed 12-bit value. */
  lemma PackedSplit(hi: Byte, nib: int)
    requires 0 <= nib < 0x10
    ensures var v := TwosComplement(hi * 0x10 + nib, 0x1000); (v / 0x10) % 0x100 == hi && v % 0x10 == nib
  {
    PackedValue(hi, nib);
    Mod16Of(S8(hi) * 0x10 + nib, S8(hi), nib);
  }

  /** Every register of the two blocks except the reserved 0xA0 is decoded: encoding
      the parsed coefficients rebuilds both blocks, 0xA0 apart. */
  lemma EncodeParse(tp: seq<Byte>, h: seq<Byte>)
    requires |tp| == TP_COEFFICIENT_REGS_LEN && |h| == H_COEFFICIENT_REGS_LEN
    ensures EncodeCoefficients(ParseCoefficients(tp, h)) ==
      CoefficientRegs(tp[RESERVED_OFFSET := 0], h)
  {
    EncodeParseTp(tp, h);
    EncodeParseH(tp, h);
  }
}
