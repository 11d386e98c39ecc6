/**
 * Byte and nibble helpers shared by the 6502 arithmetic (ch22-core/src/cpu/util.rs).
 * Bytes are 8-bit vectors so that wrap-around is the vector arithmetic itself.
 */
module CpuUtil {

  /** The single-bit masks, least significant first. */
  const BitMasks: seq<bv8> := [0x01, 0x02, 0x04, 0x08, 0x10, 0x20, 0x40, 0x80]

  /** Bit `i` (0 = least significant) of a byte. */
  predicate Bit(v: bv8, i: nat)
    requires i < 8
  {
    v & BitMasks[i] != 0
  }

  /** A byte is zero exactly when none of its bits is set. */
  lemma ZeroIffNoBits(v: bv8)
    ensures v == 0 <==> forall i :: 0 <= i < 8 ==> !Bit(v, i)
  {
    if v != 0 {
      if Bit(v, 0) {} else if Bit(v, 1) {} else if Bit(v, 2) {} else if Bit(v, 3) {}
      else if Bit(v, 4) {} else if Bit(v, 5) {} else if Bit(v, 6) {} else { assert Bit(v, 7); }
    }
  }

  /** Each bit of `a & m` is set exactly when it is set in both. */
  lemma AndBits(a: bv8, m: bv8)
    ensures forall i :: 0 <= i < 8 ==> (Bit(a & m, i) <==> Bit(a, i) && Bit(m, i))
  {
  }

  /** Each bit of `a | m` is set exactly when it is set in either. */
  lemma OrBits(a: bv8, m: bv8)
    ensures forall i :: 0 <= i < 8 ==> (Bit(a | m, i) <==> Bit(a, i) || Bit(m, i))
  {
  }

  /** Each bit of `a ^ m` is set exactly when the two bits differ. */
  lemma XorBits(a: bv8, m: bv8)
    ensures forall i :: 0 <= i < 8 ==> (Bit(a ^ m, i) <==> Bit(a, i) != Bit(m, i))
  {
  }

  /** Two's-complement sign: bit 7 is set. */
  function IsNegative(v: bv8): (r: bool)
    ensures r <==> v >= 0x80
  {
    v & 0x80 != 0
  }

  /** The sign is bit 7. */
  lemma NegativeIsBit7(v: bv8)
    ensures IsNegative(v) <==> Bit(v, 7)
  {
  }

  /*
   * The decimal adjustments return a pair (adjusted nibble, carry) in the
   * source; here each half is its own function so that the proofs about the
   * digits stay within bit-vector arithmetic.
   */

  /**
   * Decimal adjustment after an addition: a nibble above 9 gains 6 (so that its
   * low four bits wrap past 9). The sums it is applied to never exceed 31, so
   * the addition cannot wrap.
   */
  function WrapNibbleUp(n: bv8): bv8 {
    if n > 0x09 then n + 0x06 else n
  }

  /** The carry out of the adjustment after an addition: 1 exactly when the nibble was above 9. */
  function NibbleCarryUp(n: bv8): bv8 {
    if n > 0x09 then 1 else 0
  }

  /**
   * Decimal adjustment after a wrapping subtraction: a value with bit 4 set has
   * gone below zero and loses 6. Bit 4 set means the value is at least 16, so
   * the subtraction never wraps.
   */
  function WrapNibbleDown(n: bv8): bv8 {
    if n & 0x10 != 0 then n - 0x06 else n
  }

  /** The borrow out of the adjustment after a subtraction: bit 4 of the raw value. */
  function NibbleBorrowDown(n: bv8): bv8 {
    if n & 0x10 != 0 then 1 else 0
  }

  /** Adjusting up adds six times the carry, and the carry is 1 exactly above 9. */
  lemma WrapNibbleUpAddsSix(n: bv8)
    ensures NibbleCarryUp(n) <= 1
    ensures NibbleCarryUp(n) == 1 <==> n > 9
    ensures WrapNibbleUp(n) == n + 6 * NibbleCarryUp(n)
  {
  }

  /** Adjusting down takes six times the borrow, and the borrow is bit 4. */
  lemma WrapNibbleDownTakesSix(n: bv8)
    ensures NibbleBorrowDown(n) <= 1
    ensures NibbleBorrowDown(n) == 1 <==> n & 0x10 != 0
    ensures WrapNibbleDown(n) + 6 * NibbleBorrowDown(n) == n
  {
  }

  function ToHighNibble(v: bv8): (r: bv8)
    ensures r < 16
  {
    v >> 4
  }

  function ToLowNibble(v: bv8): (r: bv8)
    ensures r < 16
  {
    v & 0x0f
  }

  /** Packs two nibbles; the high one is shifted out of range above bit 7. */
  function FromNibbles(high: bv8, low: bv8): bv8 {
    (high << 4) | (low & 0x0f)
  }

  /** Packing keeps the low four bits of each nibble and nothing else. */
  lemma FromNibblesParts(high: bv8, low: bv8)
    ensures ToHighNibble(FromNibbles(high, low)) == high & 0x0f
    ensures ToLowNibble(FromNibbles(high, low)) == low & 0x0f
  {
  }

  /** The high nibble as a number: the byte's quotient by 16. */
  lemma HighNibbleValue(v: bv8)
    ensures ToHighNibble(v) as int == v as int / 16
  {
  }

  /** The low nibble as a number: the byte's remainder by 16. */
  lemma LowNibbleValue(v: bv8)
    ensures ToLowNibble(v) as int == v as int % 16
  {
  }

  /** The nibbles as numbers: the byte's quotient and remainder by 16. */
  lemma NibbleValues(v: bv8)
    ensures ToHighNibble(v) as int == v as int / 16
    ensures ToLowNibble(v) as int == v as int % 16
  {
    HighNibbleValue(v);
    LowNibbleValue(v);
  }

  /** The packed byte's value: 16 times the high nibble (bits above 3 are lost) plus the low nibble. */
  lemma FromNibblesValue(high: bv8, low: bv8)
    ensures FromNibbles(high, low) as int == 16 * (high as int % 16) + low as int % 16
  {
    var r := FromNibbles(high, low);
    FromNibblesParts(high, low);
    var h, l := ToHighNibble(r), ToLowNibble(r);
    assert h == ToLowNibble(high) && l == ToLowNibble(low);
    NibbleValues(high);
    NibbleValues(low);
    NibbleValues(r);
    assert h as int == high as int % 16;
    assert l as int == low as int % 16;
  }

  /** Splitting a byte into nibbles and packing them again gives the byte back. */
  lemma NibblesRoundTrip(v: bv8)
    ensures FromNibbles(ToHighNibble(v), ToLowNibble(v)) == v
  {
  }
}
