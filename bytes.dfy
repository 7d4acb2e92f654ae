/** Bytes and the JavaScript integer operations the driver applies to them.

    JavaScript's bitwise operators convert their Number operands to 32-bit
    two's-complement integers (ToInt32), work bit by bit, and convert back.
    They are modelled here on unbounded integers: BitOr and BitAnd work bit by
    bit on naturals, and ToInt32 does the conversion, so that the expressions
    of the driver can be written as they stand and then proved equal to plain
    arithmetic. */
module Bytes {

  type Byte = x: int | 0 <= x < 0x100

  const TWO_32: int := 0x1_0000_0000
  const TWO_31: int := 0x8000_0000

  function Pow2(n: nat): (r: nat)
    ensures r >= 1
  {
    if n == 0 then 1 else 2 * Pow2(n - 1)
  }

  /** Bitwise OR of two naturals, least significant bit first. */
  function BitOr(a: nat, b: nat): (r: nat)
    ensures a <= r && b <= r && r <= a + b
  {
    if a == 0 then b
    else if b == 0 then a
    else 2 * BitOr(a / 2, b / 2) + (if a % 2 == 1 || b % 2 == 1 then 1 else 0)
  }

  /** Bitwise AND of two naturals, least significant bit first. */
  function BitAnd(a: nat, b: nat): (r: nat)
    ensures r <= a && r <= b
  {
    if a == 0 || b == 0 then 0
    else 2 * BitAnd(a / 2, b / 2) + (if a % 2 == 1 && b % 2 == 1 then 1 else 0)
  }

  /** ECMAScript ToInt32 applied to an integral Number. */
  function ToInt32(x: int): (r: int)
    ensures -TWO_31 <= r < TWO_31
    ensures (r - x) % TWO_32 == 0
  {
    var w := x % TWO_32;
    if w >= TWO_31 then w - TWO_32 else w
  }

  /** `a | b` on integral Numbers: a signed 32-bit result, which for operands in
      [0, 2^31) has every bit of either and is at most their sum. */
  function JsOr(a: int, b: int): (r: int)
    ensures -TWO_31 <= r < TWO_31
    ensures 0 <= a < TWO_31 && 0 <= b < TWO_31 ==> r == BitOr(a, b) && a <= r && b <= r && r <= a + b
  {
    if 0 <= a < TWO_31 && 0 <= b < TWO_31 then
      assert a % TWO_32 == a && b % TWO_32 == b;
      Pow2Thirty1();
      BitOrBelow(a, b, 31);
      ToInt32Small(BitOr(a, b));
      ToInt32(BitOr(a % TWO_32, b % TWO_32))
    else
      ToInt32(BitOr(a % TWO_32, b % TWO_32))
  }

  /** `a & b` on integral Numbers: a signed 32-bit result, which for operands in
      [0, 2^31) is non-negative and at most either of them. */
  function JsAnd(a: int, b: int): (r: int)
    ensures -TWO_31 <= r < TWO_31
    ensures 0 <= a < TWO_31 && 0 <= b < TWO_31 ==> r == BitAnd(a, b) && 0 <= r <= a && r <= b
  {
    if 0 <= a < TWO_31 && 0 <= b < TWO_31 then
      assert a % TWO_32 == a && b % TWO_32 == b;
      ToInt32Small(BitAnd(a, b));
      ToInt32(BitAnd(a % TWO_32, b % TWO_32))
    else
      ToInt32(BitAnd(a % TWO_32, b % TWO_32))
  }

  /** `a << n` for a shift count below 32: a * 2^n wrapped to a signed 32-bit integer. */
  function JsShl(a: int, n: nat): (r: int)
    requires n < 32
    ensures -TWO_31 <= r < TWO_31
    ensures (r - a * Pow2(n)) % TWO_32 == 0
  {
    MulCongruent(a, Pow2(n));
    ToInt32((a % TWO_32) * Pow2(n))
  }

  /** `a >> n` (sign-propagating) for a shift count below 32: the 32-bit value of a
      divided by 2^n, rounded towards minus infinity. */
  function JsShr(a: int, n: nat): (r: int)
    requires n < 32
    ensures r * Pow2(n) <= ToInt32(a) < r * Pow2(n) + Pow2(n)
  {
    ToInt32(a) / Pow2(n)
  }

  /** Reducing a factor modulo 2^32 leaves the product's residue unchanged. */
  lemma MulCongruent(a: int, p: nat)
    ensures ((a % TWO_32) * p - a * p) % TWO_32 == 0
  {
    var q := a / TWO_32;
    assert a == q * TWO_32 + a % TWO_32;
    assert (a % TWO_32) * p - a * p == (-q * p) * TWO_32;
  }

  /** Two values below 2^k have an OR below 2^k. */
  lemma {:induction false} BitOrBelow(a: nat, b: nat, k: nat)
    requires a < Pow2(k) && b < Pow2(k)
    ensures BitOr(a, b) < Pow2(k)
  {
    if k > 0 && a != 0 && b != 0 {
      BitOrBelow(a / 2, b / 2, k - 1);
    }
  }

  lemma Pow2Thirty1()
    ensures Pow2(31) == TWO_31
  {
    Pow2Constants();
    Pow2Add(12, 12);
    assert Pow2(24) == 0x100_0000;
    Pow2Add(24, 4);
    assert Pow2(28) == 0x1000_0000;
    Pow2Add(28, 3);
  }

  lemma {:induction false} Pow2Add(a: nat, b: nat)
    ensures Pow2(a + b) == Pow2(a) * Pow2(b)
  {
    if a > 0 {
      Pow2Add(a - 1, b);
    }
  }

  /** Two's-complement reading of an unsigned field whose width gives `modulus` values. */
  function TwosComplement(u: int, modulus: nat): (r: int)
    requires modulus >= 2 && modulus % 2 == 0 && 0 <= u < modulus
    ensures -(modulus / 2) <= r < modulus / 2
    ensures r % modulus == u
    ensures (r < 0) == (u >= modulus / 2)
  {
    if u >= modulus / 2 then u - modulus else u
  }

  /** Node's Buffer.readUInt8. */
  function U8(b: Byte): (r: int)
    ensures 0 <= r <= 255
  {
    b
  }

  /** Node's Buffer.readInt8. */
  function S8(b: Byte): (r: int)
    ensures -128 <= r <= 127 && r % 0x100 == b
  {
    TwosComplement(b, 0x100)
  }

  /** Node's Buffer.readUInt16LE on the two bytes at an offset. */
  function U16LE(lo: Byte, hi: Byte): (r: int)
    ensures 0 <= r <= 0xFFFF
    ensures r % 0x100 == lo && r / 0x100 == hi
  {
    lo + 0x100 * hi
  }

  /** Node's Buffer.readInt16LE on the two bytes at an offset. */
  function S16LE(lo: Byte, hi: Byte): (r: int)
    ensures -0x8000 <= r <= 0x7FFF
    ensures r % 0x10000 == U16LE(lo, hi)
    ensures (r < 0) == (hi >= 0x80)
  {
    TwosComplement(U16LE(lo, hi), 0x10000)
  }

  /** The two bytes, low first, that hold a 16-bit value (negative values in two's complement). */
  function EncodeLE16(v: int): (bs: seq<Byte>)
    ensures |bs| == 2
  {
    var u := v % 0x10000;
    [u % 0x100, u / 0x100]
  }

  /** The byte that holds an 8-bit value (negative values in two's complement). */
  function Encode8(v: int): (b: Byte)
    ensures b % 0x100 == v % 0x100
  {
    v % 0x100
  }

  lemma U16LERoundTrip(v: int)
    requires 0 <= v <= 0xFFFF
    ensures U16LE(EncodeLE16(v)[0], EncodeLE16(v)[1]) == v
  {
  }

  lemma S16LERoundTrip(v: int)
    requires -0x8000 <= v <= 0x7FFF
    ensures S16LE(EncodeLE16(v)[0], EncodeLE16(v)[1]) == v
  {
  }

  lemma S8RoundTrip(v: int)
    requires -128 <= v <= 127
    ensures S8(Encode8(v)) == v
  {
  }

  /** OR-ing a value whose low k bits are clear with a value below 2^k adds them. */
  lemma {:induction false} BitOrDisjoint(hi: nat, lo: nat, k: nat)
    requires lo < Pow2(k)
    ensures BitOr(hi * Pow2(k), lo) == hi * Pow2(k) + lo
  {
    if k == 0 {
      assert lo == 0;
    } else if hi == 0 || lo == 0 {
    } else {
      var p := Pow2(k - 1);
      var a := hi * Pow2(k);
      assert a == 2 * (hi * p);
      assert a / 2 == hi * p && a % 2 == 0;
      assert lo / 2 < p;
      BitOrDisjoint(hi, lo / 2, k - 1);
      assert BitOr(a, lo) == 2 * BitOr(a / 2, lo / 2) + lo % 2;
    }
  }

  /** `(s * 16) | nib` with s a signed byte and nib a nibble is the sum: the product has
      four clear low bits, in two's complement as well. */
  lemma SignedNibbleOr(s: int, nib: int)
    requires -128 <= s <= 127 && 0 <= nib < 16
    ensures JsOr(s * 16, nib) == s * 16 + nib
  {
    Pow2Constants();
    var m: nat := if s >= 0 then s else s + 0x1000_0000;
    assert (s * 16) % TWO_32 == m * 16 by {
      if s < 0 {
        assert s * 16 + TWO_32 == m * 16;
        ModUniqueConst(s * 16, -1, m * 16);
      }
    }
    assert nib % TWO_32 == nib;
    BitOrDisjoint(m, nib, 4);
    assert JsOr(s * 16, nib) == ToInt32(m * 16 + nib);
    if s >= 0 {
      ToInt32Small(m * 16 + nib);
    } else {
      ToInt32High(m * 16 + nib);
    }
  }

  /** On a value in [2^31, 2^32), ToInt32 subtracts 2^32. */
  lemma ToInt32High(x: int)
    requires TWO_31 <= x < TWO_32
    ensures ToInt32(x) == x - TWO_32
  {
  }

  lemma ModUniqueConst(x: int, q: int, r: int)
    requires x == q * TWO_32 + r && 0 <= r < TWO_32
    ensures x % TWO_32 == r
  {
  }

  /** A byte as an 8-bit vector, for the register bit fields. */
  function Bits(b: Byte): (v: bv8)
    ensures v as int == b
  {
    if b == 0 then 0 else Bits(b - 1) + 1
  }

  /** On a value that fits in 31 bits, ToInt32 changes nothing. */
  lemma ToInt32Small(x: int)
    requires 0 <= x < TWO_31
    ensures ToInt32(x) == x
  {
  }

  /** `(hi << k) | lo` with lo below 2^k and no bit beyond bit 30 is hi * 2^k + lo. */
  lemma ShiftOrDisjoint(hi: nat, lo: nat, k: nat)
    requires k < 32 && lo < Pow2(k) && hi * Pow2(k) + lo < TWO_31
    ensures JsShl(hi, k) == hi * Pow2(k)
    ensures JsOr(JsShl(hi, k), lo) == hi * Pow2(k) + lo
  {
    var x := hi * Pow2(k);
    assert hi <= x by {
      MulAtLeast(hi, Pow2(k));
    }
    ShlSmall(hi, k, x);
    BitOrDisjoint(hi, lo, k);
  }

  lemma MulAtLeast(a: nat, b: nat)
    requires b >= 1
    ensures a <= a * b
  {
  }

  lemma ShlSmall(a: nat, k: nat, x: nat)
    requires k < 32 && x == a * Pow2(k) && a <= x < TWO_31
    ensures JsShl(a, k) == x
  {
    assert a % TWO_32 == a;
    ToInt32Small(x);
  }

  lemma Pow2Constants()
    ensures Pow2(4) == 16 && Pow2(8) == 0x100 && Pow2(12) == 0x1000
  {
  }

  /** `x & 0xf` on a byte is its low nibble. */
  lemma LowNibble(x: Byte)
    ensures JsAnd(x, 0xf) == x % 16
  {
    assert x % TWO_32 == x && 0xf % TWO_32 == 0xf;
    NibbleMask(x);
    ToInt32Small(x % 16);
  }

  lemma {:induction false} NibbleMask(x: nat)
    ensures BitAnd(x, 15) == x % 16
  {
    if x != 0 {
      LowBits3(x / 2);
      DropLowBit(x);
      assert BitAnd(x, 15) == 2 * BitAnd(x / 2, 7) + x % 2;
    }
  }

  lemma {:induction false} LowBits3(y: nat)
    ensures BitAnd(y, 7) == y % 8
  {
    if y != 0 {
      LowBits2(y / 2);
      DropLowBit(y);
      assert BitAnd(y, 7) == 2 * BitAnd(y / 2, 3) + y % 2;
    }
  }

  lemma {:induction false} LowBits2(z: nat)
    ensures BitAnd(z, 3) == z % 4
  {
    if z != 0 {
      var w := z / 2;
      assert BitAnd(w, 1) == w % 2 by {
        if w != 0 {
          assert BitAnd(w, 1) == 2 * BitAnd(w / 2, 0) + w % 2;
        }
      }
      DropLowBit(z);
      assert BitAnd(z, 3) == 2 * BitAnd(w, 1) + z % 2;
    }
  }

  /** The low bits of x are its lowest bit below the low bits of x / 2. */
  lemma DropLowBit(x: nat)
    ensures x % 16 == 2 * ((x / 2) % 8) + x % 2
    ensures x % 8 == 2 * ((x / 2) % 4) + x % 2
    ensures x % 4 == 2 * ((x / 2) % 2) + x % 2
  {
    var a := x / 2;
    assert x == 2 * a + x % 2;
    Mod16Of(x, a / 8, 2 * (a % 8) + x % 2);
    Mod8Of(x, a / 4, 2 * (a % 4) + x % 2);
    Mod4Of(x, a / 2, 2 * (a % 2) + x % 2);
  }

  lemma Mod16Of(x: int, q: int, r: int)
    requires x == 16 * q + r && 0 <= r < 16
    ensures x % 16 == r && x / 16 == q
  {
  }

  lemma Mod8Of(x: int, q: int, r: int)
    requires x == 8 * q + r && 0 <= r < 8
    ensures x % 8 == r
  {
  }

  lemma Mod4Of(x: int, q: int, r: int)
    requires x == 4 * q + r && 0 <= r < 4
    ensures x % 4 == r
  {
  }

  /** `x >> 4` on a byte is its high nibble. */
  lemma HighNibble(x: Byte)
    ensures JsShr(x, 4) == x / 16
  {
  }
}
