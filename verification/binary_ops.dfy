/**
 * Two-operand 6502 operations on the accumulator and an operand, NMOS
 * behaviour including the decimal-mode quirks
 * (ch22-core/src/cpu/executor/binary_ops.rs).
 */
module BinaryOps {
  import opened CpuUtil
  import opened Registers
  import opened UnaryOps

  // ---------------------------------------------------------------- logic

  function And(p: StatusRegister, a: bv8, m: bv8): (r: AluResult)
    ensures forall i :: 0 <= i < 8 ==> (Bit(r.value, i) <==> Bit(a, i) && Bit(m, i))
    ensures ZeroNegativeOf(r.p, r.value) && r.p.carry == p.carry && SameControlFlags(p, r.p)
  {
    var v := a & m;
    AndBits(a, m);
    AluResult(v, UpdateZeroNegative(p, v))
  }

  /** ANC: an AND whose carry is then copied from the new negative flag. */
  function AndNegativeCarry(p: StatusRegister, a: bv8, m: bv8): (r: AluResult)
    ensures r.value == And(p, a, m).value
    ensures r.p.carry == r.p.negative
    ensures ZeroNegativeOf(r.p, r.value) && SameControlFlags(p, r.p)
  {
    var q := And(p, a, m);
    AluResult(q.value, q.p.(carry := q.p.negative))
  }

  function Or(p: StatusRegister, a: bv8, m: bv8): (r: AluResult)
    ensures forall i :: 0 <= i < 8 ==> (Bit(r.value, i) <==> Bit(a, i) || Bit(m, i))
    ensures ZeroNegativeOf(r.p, r.value) && r.p.carry == p.carry && SameControlFlags(p, r.p)
  {
    var v := a | m;
    OrBits(a, m);
    AluResult(v, UpdateZeroNegative(p, v))
  }

  function Xor(p: StatusRegister, a: bv8, m: bv8): (r: AluResult)
    ensures forall i :: 0 <= i < 8 ==> (Bit(r.value, i) <==> Bit(a, i) != Bit(m, i))
    ensures ZeroNegativeOf(r.p, r.value) && r.p.carry == p.carry && SameControlFlags(p, r.p)
  {
    var v := a ^ m;
    XorBits(a, m);
    AluResult(v, UpdateZeroNegative(p, v))
  }

  /** BIT: the accumulator is returned unchanged; the flags describe the operand. */
  function BitTest(p: StatusRegister, a: bv8, m: bv8): (r: AluResult)
    ensures r.value == a
    ensures r.p.zero <==> (forall i :: 0 <= i < 8 ==> !(Bit(a, i) && Bit(m, i)))
    ensures r.p.overflow == Bit(m, 6) && r.p.negative == Bit(m, 7)
    ensures r.p.carry == p.carry && r.p.interruptDisable == p.interruptDisable
    ensures r.p.decimalMode == p.decimalMode
  {
    NoCommonBits(a, m);
    AluResult(a, p.(zero := a & m == 0, overflow := m & 0x40 != 0, negative := IsNegative(m)))
  }

  /** The AND of two bytes is zero exactly when they share no set bit. */
  lemma NoCommonBits(a: bv8, m: bv8)
    ensures a & m == 0 <==> (forall i :: 0 <= i < 8 ==> !(Bit(a, i) && Bit(m, i)))
  {
    AndBits(a, m);
    ZeroIffNoBits(a & m);
    if a & m == 0 {
      forall i | 0 <= i < 8 ensures !(Bit(a, i) && Bit(m, i)) {
        assert !Bit(a & m, i);
      }
    } else {
      var i :| 0 <= i < 8 && Bit(a & m, i);
      assert Bit(a, i) && Bit(m, i);
    }
  }

  /** ALR: AND followed by a logical shift right of the accumulator. */
  function AndShiftRight(p: StatusRegister, a: bv8, m: bv8): (r: AluResult)
    ensures (a & m) as bv16 == 2 * r.value as bv16 + CarryBit(r.p.carry) as bv16
    ensures r.p.carry <==> Bit(a, 0) && Bit(m, 0)
    ensures (r.p.zero <==> r.value == 0) && !r.p.negative
    ensures SameControlFlags(p, r.p)
  {
    ShiftRight(p, a & m)
  }

  // ------------------------------------------------------------ overflow

  /** Signed overflow of an addition: both operands share a sign that the result lacks. */
  function AddOverflow(a: bv8, r: bv8, m: bv8): bool {
    IsNegative((a ^ r) & (a ^ !m))
  }

  lemma AddOverflowSigns(a: bv8, r: bv8, m: bv8)
    ensures AddOverflow(a, r, m) <==> IsNegative(a) == IsNegative(m) && IsNegative(r) != IsNegative(a)
  {
  }

  /** Signed overflow of a subtraction: the operands' signs differ and the result lost the first one's. */
  function SubtractOverflow(a: bv8, r: bv8, m: bv8): bool {
    AddOverflow(a, r, !m)
  }

  lemma SubtractOverflowSigns(a: bv8, r: bv8, m: bv8)
    ensures SubtractOverflow(a, r, m) <==> IsNegative(a) != IsNegative(m) && IsNegative(r) != IsNegative(a)
  {
  }

  // -------------------------------------------------------------- binary

  /** The byte sum A + M + C, wrapping. */
  function BinarySum(a: bv8, m: bv8, c: bv8): bv8 {
    a + m + c
  }

  /** Whether adding the operand, or then the carry, wrapped past 0xff. */
  function BinaryCarryOut(a: bv8, m: bv8, c: bv8): bool {
    a + m < a || a + m + c < a + m
  }

  /** The byte difference A - M - B, wrapping. */
  function BinaryDifference(a: bv8, m: bv8, b: bv8): bv8 {
    a - m - b
  }

  /** The wrapped sum is the low byte of the exact sum, computed in sixteen bits. */
  lemma ByteSumLow(a: bv8, m: bv8, c: bv8)
    ensures BinarySum(a, m, c) as bv16 == (a as bv16 + m as bv16 + c as bv16) & 0xff
  {
  }

  /** With a carry of 0 or 1, one of the two byte additions wraps exactly when the exact sum reaches 256. */
  lemma ByteSumCarry(a: bv8, m: bv8, c: bv8)
    requires c <= 1
    ensures BinaryCarryOut(a, m, c) <==> a as bv16 + m as bv16 + c as bv16 >= 0x100
  {
  }

  /** `carry:low` read as a nine-bit number, 256 * carry + low, is `total`. */
  predicate NineBits(total: bv16, carry: bool, low: bv8) {
    total == 0x100 * CarryBit(carry) as bv16 + low as bv16
  }

  /** A - M - B, borrowing 256 when `borrow` holds, leaves `low`: A + 256 * borrow == M + B + low. */
  predicate BorrowedDifference(a: bv8, m: bv8, b: bv8, borrow: bool, low: bv8) {
    a as bv16 + 0x100 * CarryBit(borrow) as bv16 == m as bv16 + b as bv16 + low as bv16
  }

  /** With a carry of 0 or 1 the exact sum, at most 0x1ff, is carry-out:sum in nine bits. */
  lemma ByteSum(a: bv8, m: bv8, c: bv8)
    requires c <= 1
    ensures NineBits(a as bv16 + m as bv16 + c as bv16, BinaryCarryOut(a, m, c), BinarySum(a, m, c))
  {
    ByteSumLow(a, m, c);
    ByteSumCarry(a, m, c);
  }

  /**
   * Binary ADC: the operand and then the carry are added with wrapping byte
   * additions, and the carry flag records whether either wrapped.
   */
  function AddBinary(p: StatusRegister, a: bv8, m: bv8): AluResult {
    var c := CarryBit(p.carry);
    var result := BinarySum(a, m, c);
    AluResult(result, UpdateZeroNegative(p, result).(
      carry := BinaryCarryOut(a, m, c),
      overflow := AddOverflow(a, result, m)))
  }

  /** The value of binary ADC is the wrapped sum. */
  lemma AddBinaryValue(p: StatusRegister, a: bv8, m: bv8)
    ensures AddBinary(p, a, m).value == BinarySum(a, m, CarryBit(p.carry))
  {
  }

  /** Binary ADC is exact nine-bit addition: A + M + C is carry:value. */
  lemma AddBinarySum(p: StatusRegister, a: bv8, m: bv8)
    ensures NineBits(a as bv16 + m as bv16 + CarryBit(p.carry) as bv16, AddBinary(p, a, m).p.carry, AddBinary(p, a, m).value)
  {
    ByteSum(a, m, CarryBit(p.carry));
  }

  /** Overflow flags a signed sum outside -128..127: operands of one sign, result of the other. */
  lemma AddBinaryOverflow(p: StatusRegister, a: bv8, m: bv8)
    ensures AddBinary(p, a, m).p.overflow <==>
      IsNegative(a) == IsNegative(m) && IsNegative(AddBinary(p, a, m).value) != IsNegative(a)
  {
    AddOverflowSigns(a, BinarySum(a, m, CarryBit(p.carry)), m);
  }

  /** Binary ADC sets zero and negative from its value and keeps interrupt-disable and decimal mode. */
  lemma AddBinaryFlags(p: StatusRegister, a: bv8, m: bv8)
    ensures ZeroNegativeOf(AddBinary(p, a, m).p, AddBinary(p, a, m).value)
    ensures AddBinary(p, a, m).p.interruptDisable == p.interruptDisable
    ensures AddBinary(p, a, m).p.decimalMode == p.decimalMode
  {
  }

  /** Binary ADC: exact nine-bit addition with the signed overflow of the sum. */
  lemma AddBinaryCorrect(p: StatusRegister, a: bv8, m: bv8)
    ensures NineBits(a as bv16 + m as bv16 + CarryBit(p.carry) as bv16, AddBinary(p, a, m).p.carry, AddBinary(p, a, m).value)
    ensures AddBinary(p, a, m).p.overflow <==>
      IsNegative(a) == IsNegative(m) && IsNegative(AddBinary(p, a, m).value) != IsNegative(a)
    ensures ZeroNegativeOf(AddBinary(p, a, m).p, AddBinary(p, a, m).value)
    ensures AddBinary(p, a, m).p.interruptDisable == p.interruptDisable
    ensures AddBinary(p, a, m).p.decimalMode == p.decimalMode
  {
    AddBinarySum(p, a, m);
    AddBinaryOverflow(p, a, m);
    AddBinaryFlags(p, a, m);
  }

  /** The borrow a subtraction takes in: the complement of the carry flag. */
  function BorrowIn(carry: bool): (b: bv8)
    ensures b <= 1 && (b == 0 <==> carry)
  {
    1 - CarryBit(carry)
  }

  /*
   * The complemented operand is passed to the lemmas below as a variable `n`
   * with `n == !m`, rather than as the expression `!m`, which keeps their
   * proofs small.
   */

  /** Adding the complement and the carry is subtracting the operand and the borrow. */
  lemma ComplementSum(a: bv8, m: bv8, n: bv8, carry: bool)
    requires n == !m
    ensures BinarySum(a, n, CarryBit(carry)) == BinaryDifference(a, m, BorrowIn(carry))
  {
  }

  /** The complement has the opposite sign. */
  lemma ComplementSign(m: bv8, n: bv8)
    requires n == !m
    ensures IsNegative(n) != IsNegative(m)
  {
  }

  /** A nine-bit sum of A, the complement of M and C is a subtraction borrowing the complement of its carries. */
  lemma ComplementDifference(a: bv8, m: bv8, n: bv8, carryIn: bool, carryOut: bool, low: bv8)
    requires n == !m
    requires NineBits(a as bv16 + n as bv16 + CarryBit(carryIn) as bv16, carryOut, low)
    ensures BorrowedDifference(a, m, BorrowIn(carryIn), !carryOut, low)
  {
  }

  /** Binary ADC of the complement of M has the value A - M - B. */
  lemma AddComplementValue(p: StatusRegister, a: bv8, m: bv8, n: bv8)
    requires n == !m
    ensures AddBinary(p, a, n).value == BinaryDifference(a, m, BorrowIn(p.carry))
  {
    AddBinaryValue(p, a, n);
    ComplementSum(a, m, n, p.carry);
  }

  /** Binary ADC of the complement of M subtracts M and the borrow, borrowing out the complement of its carry. */
  lemma AddComplementDifference(p: StatusRegister, a: bv8, m: bv8, n: bv8)
    requires n == !m
    ensures BorrowedDifference(a, m, BorrowIn(p.carry), !AddBinary(p, a, n).p.carry, AddBinary(p, a, n).value)
  {
    AddBinarySum(p, a, n);
    ComplementDifference(a, m, n, p.carry, AddBinary(p, a, n).p.carry, AddBinary(p, a, n).value);
  }

  /** Binary ADC of the complement of M flags the signed overflow of A - M. */
  lemma AddComplementOverflow(p: StatusRegister, a: bv8, m: bv8, n: bv8)
    requires n == !m
    ensures AddBinary(p, a, n).p.overflow <==>
      IsNegative(a) != IsNegative(m) && IsNegative(AddBinary(p, a, n).value) != IsNegative(a)
  {
    AddBinaryOverflow(p, a, n);
    ComplementSign(m, n);
  }

  /** Binary SBC is binary ADC of the complemented operand. */
  function SubtractBinary(p: StatusRegister, a: bv8, m: bv8): AluResult {
    AddBinary(p, a, !m)
  }

  /**
   * Binary SBC computes A - M - B mod 256, B = 1 - C being the borrow in, and
   * the carry is set exactly when nothing is borrowed out.
   */
  lemma SubtractBinaryCorrect(p: StatusRegister, a: bv8, m: bv8)
    ensures SubtractBinary(p, a, m).value == BinaryDifference(a, m, BorrowIn(p.carry))
    ensures BorrowedDifference(a, m, BorrowIn(p.carry), !SubtractBinary(p, a, m).p.carry, SubtractBinary(p, a, m).value)
    ensures ZeroNegativeOf(SubtractBinary(p, a, m).p, SubtractBinary(p, a, m).value)
    ensures SubtractBinary(p, a, m).p.interruptDisable == p.interruptDisable
    ensures SubtractBinary(p, a, m).p.decimalMode == p.decimalMode
  {
    AddComplementValue(p, a, m, !m);
    AddComplementDifference(p, a, m, !m);
    AddBinaryFlags(p, a, !m);
  }

  /** Binary SBC flags a signed difference outside -128..127: operands of opposite signs, result not of A's. */
  lemma SubtractBinaryOverflow(p: StatusRegister, a: bv8, m: bv8)
    ensures SubtractBinary(p, a, m).p.overflow <==>
      IsNegative(a) != IsNegative(m) && IsNegative(SubtractBinary(p, a, m).value) != IsNegative(a)
  {
    AddComplementOverflow(p, a, m, !m);
  }

  // ------------------------------------------------------------- decimal

  /** Both nibbles are decimal digits. */
  predicate IsBcd(v: bv8) {
    ToHighNibble(v) <= 9 && ToLowNibble(v) <= 9
  }

  /** The number 0..99 a BCD byte denotes. */
  function DecimalValue(v: bv8): int {
    10 * ToHighNibble(v) as int + ToLowNibble(v) as int
  }

  /** A BCD byte denotes a number below 100. */
  lemma DecimalValueRange(v: bv8)
    requires IsBcd(v)
    ensures 0 <= DecimalValue(v) <= 99
  {
  }

  /** The low nibbles and the carry, before adjustment. */
  function LowDigitSum(a: bv8, m: bv8, c: bv8): bv8 {
    ToLowNibble(a) + ToLowNibble(m) + c
  }

  /** The high nibbles and the low digit's carry, before adjustment. */
  function HighDigitSum(a: bv8, m: bv8, c: bv8): bv8 {
    ToHighNibble(a) + ToHighNibble(m) + NibbleCarryUp(LowDigitSum(a, m, c))
  }

  /** The sum with only the low digit adjusted; decimal ADC takes N and V from it. */
  function UnadjustedSum(a: bv8, m: bv8, c: bv8): bv8 {
    FromNibbles(HighDigitSum(a, m, c), WrapNibbleUp(LowDigitSum(a, m, c)))
  }

  /** The result of decimal ADC: both digits adjusted. */
  function DecimalSum(a: bv8, m: bv8, c: bv8): bv8 {
    FromNibbles(WrapNibbleUp(HighDigitSum(a, m, c)), WrapNibbleUp(LowDigitSum(a, m, c)))
  }

  /** The carry of decimal ADC: the high digit's adjustment carried. */
  function DecimalCarryOut(a: bv8, m: bv8, c: bv8): bool {
    NibbleCarryUp(HighDigitSum(a, m, c)) == 1
  }

  /**
   * Decimal ADC. Zero is taken from the binary sum, negative and overflow from
   * the sum before the high nibble is adjusted, carry from the high adjustment.
   */
  function AddDecimal(p: StatusRegister, a: bv8, m: bv8): AluResult {
    var c := CarryBit(p.carry);
    AluResult(DecimalSum(a, m, c), p.(
      zero := BinarySum(a, m, c) == 0,
      overflow := AddOverflow(a, UnadjustedSum(a, m, c), m),
      negative := IsNegative(UnadjustedSum(a, m, c)),
      carry := DecimalCarryOut(a, m, c)))
  }

  /**
   * On BCD operands decimal ADC gives the BCD of the decimal sum mod 100,
   * with carry exactly when that sum reached 100.
   */
  lemma AddDecimalCorrect(p: StatusRegister, a: bv8, m: bv8)
    requires IsBcd(a) && IsBcd(m)
    ensures IsBcd(AddDecimal(p, a, m).value)
    ensures DecimalValue(AddDecimal(p, a, m).value) ==
      (DecimalValue(a) + DecimalValue(m) + CarryBit(p.carry) as int) % 100
    ensures AddDecimal(p, a, m).p.carry <==> DecimalValue(a) + DecimalValue(m) + CarryBit(p.carry) as int >= 100
    ensures AddDecimal(p, a, m).p.interruptDisable == p.interruptDisable
    ensures AddDecimal(p, a, m).p.decimalMode == p.decimalMode
  {
    DecimalSumCorrect(a, m, CarryBit(p.carry));
  }

  /** ADC: decimal or binary according to the decimal-mode flag. */
  function AddWithCarry(p: StatusRegister, a: bv8, m: bv8): AluResult {
    if p.decimalMode then AddDecimal(p, a, m) else AddBinary(p, a, m)
  }

  /** ADC adds modulo 256 in binary mode and modulo 100 on BCD operands in decimal mode. */
  lemma AddWithCarryCorrect(p: StatusRegister, a: bv8, m: bv8)
    ensures !p.decimalMode ==>
      NineBits(a as bv16 + m as bv16 + CarryBit(p.carry) as bv16, AddWithCarry(p, a, m).p.carry, AddWithCarry(p, a, m).value)
    ensures p.decimalMode && IsBcd(a) && IsBcd(m) ==>
      IsBcd(AddWithCarry(p, a, m).value) &&
      DecimalValue(AddWithCarry(p, a, m).value) == (DecimalValue(a) + DecimalValue(m) + CarryBit(p.carry) as int) % 100
    ensures p.decimalMode && IsBcd(a) && IsBcd(m) ==>
      (AddWithCarry(p, a, m).p.carry <==> DecimalValue(a) + DecimalValue(m) + CarryBit(p.carry) as int >= 100)
  {
    if !p.decimalMode {
      AddBinaryCorrect(p, a, m);
    } else if IsBcd(a) && IsBcd(m) {
      AddDecimalCorrect(p, a, m);
    }
  }

  /** The low nibbles minus the borrow, wrapping, before adjustment. */
  function LowDigitDifference(a: bv8, m: bv8, b: bv8): bv8 {
    ToLowNibble(a) - ToLowNibble(m) - b
  }

  /** The high nibbles minus the low digit's borrow, wrapping, before adjustment. */
  function HighDigitDifference(a: bv8, m: bv8, b: bv8): bv8 {
    ToHighNibble(a) - ToHighNibble(m) - NibbleBorrowDown(LowDigitDifference(a, m, b))
  }

  /** The result of decimal SBC: both digits adjusted. */
  function DecimalDifference(a: bv8, m: bv8, b: bv8): bv8 {
    FromNibbles(WrapNibbleDown(HighDigitDifference(a, m, b)), WrapNibbleDown(LowDigitDifference(a, m, b)))
  }

  /** Whether decimal SBC borrowed out of the high digit. */
  function DecimalBorrowOut(a: bv8, m: bv8, b: bv8): bool {
    NibbleBorrowDown(HighDigitDifference(a, m, b)) == 1
  }

  /**
   * Decimal SBC: N, Z and V come from the binary difference, the value and
   * carry from the digits.
   */
  function SubtractDecimal(p: StatusRegister, a: bv8, m: bv8): AluResult {
    var b := BorrowIn(p.carry);
    var binary := BinaryDifference(a, m, b);
    AluResult(DecimalDifference(a, m, b), UpdateZeroNegative(p, binary).(
      overflow := SubtractOverflow(a, binary, m),
      carry := !DecimalBorrowOut(a, m, b)))
  }

  /**
   * On BCD operands decimal SBC gives the BCD of the decimal difference mod
   * 100, with carry exactly when nothing was borrowed.
   */
  lemma SubtractDecimalCorrect(p: StatusRegister, a: bv8, m: bv8)
    requires IsBcd(a) && IsBcd(m)
    ensures IsBcd(SubtractDecimal(p, a, m).value)
    ensures DecimalValue(SubtractDecimal(p, a, m).value) ==
      (DecimalValue(a) - DecimalValue(m) - BorrowIn(p.carry) as int) % 100
    ensures SubtractDecimal(p, a, m).p.carry <==> DecimalValue(a) - DecimalValue(m) - BorrowIn(p.carry) as int >= 0
    ensures SubtractDecimal(p, a, m).p.interruptDisable == p.interruptDisable
    ensures SubtractDecimal(p, a, m).p.decimalMode == p.decimalMode
  {
    DecimalDifferenceCorrect(a, m, BorrowIn(p.carry));
  }

  /** SBC: decimal or binary according to the decimal-mode flag. */
  function SubtractWithCarry(p: StatusRegister, a: bv8, m: bv8): AluResult {
    if p.decimalMode then SubtractDecimal(p, a, m) else SubtractBinary(p, a, m)
  }

  /** SBC subtracts modulo 256 in binary mode and modulo 100 on BCD operands in decimal mode. */
  lemma SubtractWithCarryCorrect(p: StatusRegister, a: bv8, m: bv8)
    ensures !p.decimalMode ==>
      BorrowedDifference(a, m, BorrowIn(p.carry), !SubtractWithCarry(p, a, m).p.carry, SubtractWithCarry(p, a, m).value)
    ensures p.decimalMode && IsBcd(a) && IsBcd(m) ==>
      IsBcd(SubtractWithCarry(p, a, m).value) &&
      DecimalValue(SubtractWithCarry(p, a, m).value) == (DecimalValue(a) - DecimalValue(m) - BorrowIn(p.carry) as int) % 100
    ensures p.decimalMode && IsBcd(a) && IsBcd(m) ==>
      (SubtractWithCarry(p, a, m).p.carry <==> DecimalValue(a) - DecimalValue(m) - BorrowIn(p.carry) as int >= 0)
  {
    if !p.decimalMode {
      SubtractBinaryCorrect(p, a, m);
    } else if IsBcd(a) && IsBcd(m) {
      SubtractDecimalCorrect(p, a, m);
    }
  }

  // ------------------------------------------- decimal addition correctness

  lemma DecimalSumIsBcd(a: bv8, m: bv8, c: bv8)
    requires IsBcd(a) && IsBcd(m) && c <= 1
    ensures IsBcd(DecimalSum(a, m, c))
  {
  }

  /** The adjusted low digit plus ten times its carry is the raw low sum. */
  lemma LowDigitSumBytes(a: bv8, m: bv8, c: bv8)
    requires IsBcd(a) && IsBcd(m) && c <= 1
    ensures ToLowNibble(DecimalSum(a, m, c)) + 10 * NibbleCarryUp(LowDigitSum(a, m, c)) == LowDigitSum(a, m, c)
  {
  }

  /** The adjusted high digit plus ten times its carry is the raw high sum. */
  lemma HighDigitSumBytes(a: bv8, m: bv8, c: bv8)
    requires IsBcd(a) && IsBcd(m) && c <= 1
    ensures ToHighNibble(DecimalSum(a, m, c)) + 10 * NibbleCarryUp(HighDigitSum(a, m, c)) == HighDigitSum(a, m, c)
  {
  }

  /** A one-digit byte equation with no wrap-around holds over the integers. */
  lemma DigitEquation(x: bv8, y: bv8, u: bv8, v: bv8, w: bv8)
    requires x <= 9 && y <= 1 && u <= 9 && v <= 9 && w <= 1 && x + 10 * y == u + v + w
    ensures x as int + 10 * y as int == u as int + v as int + w as int
  {
  }

  lemma AddLowDigit(a: bv8, m: bv8, c: bv8)
    requires IsBcd(a) && IsBcd(m) && c <= 1
    ensures ToLowNibble(DecimalSum(a, m, c)) as int + 10 * NibbleCarryUp(LowDigitSum(a, m, c)) as int ==
      ToLowNibble(a) as int + ToLowNibble(m) as int + c as int
  {
    DecimalSumIsBcd(a, m, c);
    LowDigitSumBytes(a, m, c);
    WrapNibbleUpAddsSix(LowDigitSum(a, m, c));
    DigitEquation(ToLowNibble(DecimalSum(a, m, c)), NibbleCarryUp(LowDigitSum(a, m, c)), ToLowNibble(a), ToLowNibble(m), c);
  }

  lemma AddHighDigit(a: bv8, m: bv8, c: bv8)
    requires IsBcd(a) && IsBcd(m) && c <= 1
    ensures ToHighNibble(DecimalSum(a, m, c)) as int + 10 * NibbleCarryUp(HighDigitSum(a, m, c)) as int ==
      ToHighNibble(a) as int + ToHighNibble(m) as int + NibbleCarryUp(LowDigitSum(a, m, c)) as int
  {
    DecimalSumIsBcd(a, m, c);
    HighDigitSumBytes(a, m, c);
    WrapNibbleUpAddsSix(LowDigitSum(a, m, c));
    WrapNibbleUpAddsSix(HighDigitSum(a, m, c));
    DigitEquation(ToHighNibble(DecimalSum(a, m, c)), NibbleCarryUp(HighDigitSum(a, m, c)),
                  ToHighNibble(a), ToHighNibble(m), NibbleCarryUp(LowDigitSum(a, m, c)));
  }

  /** The digits and the high carry together account for the decimal sum. */
  lemma DecimalSumHundreds(a: bv8, m: bv8, c: bv8)
    requires IsBcd(a) && IsBcd(m) && c <= 1
    ensures DecimalValue(a) + DecimalValue(m) + c as int ==
      DecimalValue(DecimalSum(a, m, c)) + 100 * NibbleCarryUp(HighDigitSum(a, m, c)) as int
  {
    AddLowDigit(a, m, c);
    AddHighDigit(a, m, c);
  }

  /** On BCD operands the digits of decimal ADC hold the decimal sum mod 100. */
  lemma {:induction false} DecimalSumValue(a: bv8, m: bv8, c: bv8)
    requires IsBcd(a) && IsBcd(m) && c <= 1
    ensures DecimalValue(DecimalSum(a, m, c)) == (DecimalValue(a) + DecimalValue(m) + c as int) % 100
  {
    DecimalSumIsBcd(a, m, c);
    DecimalSumHundreds(a, m, c);
    DecimalValueRange(DecimalSum(a, m, c));
    WrapNibbleUpAddsSix(HighDigitSum(a, m, c));
    CarriedHundred(DecimalValue(a) + DecimalValue(m) + c as int, DecimalValue(DecimalSum(a, m, c)),
                   NibbleCarryUp(HighDigitSum(a, m, c)) as int);
  }

  /** On BCD operands decimal ADC carries exactly when the decimal sum reaches 100. */
  lemma {:induction false} DecimalSumCarry(a: bv8, m: bv8, c: bv8)
    requires IsBcd(a) && IsBcd(m) && c <= 1
    ensures DecimalCarryOut(a, m, c) <==> DecimalValue(a) + DecimalValue(m) + c as int >= 100
  {
    DecimalSumIsBcd(a, m, c);
    DecimalSumHundreds(a, m, c);
    DecimalValueRange(DecimalSum(a, m, c));
    WrapNibbleUpAddsSix(HighDigitSum(a, m, c));
    CarriedHundred(DecimalValue(a) + DecimalValue(m) + c as int, DecimalValue(DecimalSum(a, m, c)),
                   NibbleCarryUp(HighDigitSum(a, m, c)) as int);
  }

  /** On BCD operands the digits hold the decimal sum mod 100, with the hundreds in the carry. */
  lemma {:induction false} DecimalSumCorrect(a: bv8, m: bv8, c: bv8)
    requires IsBcd(a) && IsBcd(m) && c <= 1
    ensures IsBcd(DecimalSum(a, m, c))
    ensures DecimalValue(DecimalSum(a, m, c)) == (DecimalValue(a) + DecimalValue(m) + c as int) % 100
    ensures DecimalCarryOut(a, m, c) <==> DecimalValue(a) + DecimalValue(m) + c as int >= 100
  {
    DecimalSumIsBcd(a, m, c);
    DecimalSumValue(a, m, c);
    DecimalSumCarry(a, m, c);
  }

  /** A sum written as a digit pair plus an optional carried hundred. */
  lemma CarriedHundred(x: int, d: int, k: int)
    requires 0 <= d <= 99 && (k == 0 || k == 1) && x == d + 100 * k
    ensures d == x % 100 && (k == 1 <==> x >= 100)
  {
  }

  // ---------------------------------------- decimal subtraction correctness

  lemma DecimalDifferenceIsBcd(a: bv8, m: bv8, b: bv8)
    requires IsBcd(a) && IsBcd(m) && b <= 1
    ensures IsBcd(DecimalDifference(a, m, b))
  {
  }

  /** The low digit of A plus ten times the low borrow is the adjusted digit plus M's digit and the borrow in. */
  lemma LowDigitDifferenceBytes(a: bv8, m: bv8, b: bv8)
    requires IsBcd(a) && IsBcd(m) && b <= 1
    ensures ToLowNibble(a) + 10 * NibbleBorrowDown(LowDigitDifference(a, m, b)) ==
      ToLowNibble(DecimalDifference(a, m, b)) + ToLowNibble(m) + b
  {
  }

  /** The same for the high digit, with the low digit's borrow taken in. */
  lemma HighDigitDifferenceBytes(a: bv8, m: bv8, b: bv8)
    requires IsBcd(a) && IsBcd(m) && b <= 1
    ensures ToHighNibble(a) + 10 * NibbleBorrowDown(HighDigitDifference(a, m, b)) ==
      ToHighNibble(DecimalDifference(a, m, b)) + ToHighNibble(m) + NibbleBorrowDown(LowDigitDifference(a, m, b))
  {
  }

  lemma SubtractLowDigit(a: bv8, m: bv8, b: bv8)
    requires IsBcd(a) && IsBcd(m) && b <= 1
    ensures ToLowNibble(a) as int + 10 * NibbleBorrowDown(LowDigitDifference(a, m, b)) as int ==
      ToLowNibble(DecimalDifference(a, m, b)) as int + ToLowNibble(m) as int + b as int
  {
    DecimalDifferenceIsBcd(a, m, b);
    LowDigitDifferenceBytes(a, m, b);
    WrapNibbleDownTakesSix(LowDigitDifference(a, m, b));
    DigitEquation(ToLowNibble(a), NibbleBorrowDown(LowDigitDifference(a, m, b)),
                  ToLowNibble(DecimalDifference(a, m, b)), ToLowNibble(m), b);
  }

  lemma SubtractHighDigit(a: bv8, m: bv8, b: bv8)
    requires IsBcd(a) && IsBcd(m) && b <= 1
    ensures ToHighNibble(a) as int + 10 * NibbleBorrowDown(HighDigitDifference(a, m, b)) as int ==
      ToHighNibble(DecimalDifference(a, m, b)) as int + ToHighNibble(m) as int +
      NibbleBorrowDown(LowDigitDifference(a, m, b)) as int
  {
    DecimalDifferenceIsBcd(a, m, b);
    HighDigitDifferenceBytes(a, m, b);
    WrapNibbleDownTakesSix(LowDigitDifference(a, m, b));
    WrapNibbleDownTakesSix(HighDigitDifference(a, m, b));
    DigitEquation(ToHighNibble(a), NibbleBorrowDown(HighDigitDifference(a, m, b)),
                  ToHighNibble(DecimalDifference(a, m, b)), ToHighNibble(m), NibbleBorrowDown(LowDigitDifference(a, m, b)));
  }

  /** The digits and the high borrow together account for the decimal difference. */
  lemma DecimalDifferenceHundreds(a: bv8, m: bv8, b: bv8)
    requires IsBcd(a) && IsBcd(m) && b <= 1
    ensures DecimalValue(a) + 100 * NibbleBorrowDown(HighDigitDifference(a, m, b)) as int ==
      DecimalValue(DecimalDifference(a, m, b)) + DecimalValue(m) + b as int
  {
    SubtractLowDigit(a, m, b);
    SubtractHighDigit(a, m, b);
  }

  /** On BCD operands the digits of decimal SBC hold the decimal difference mod 100. */
  lemma {:induction false} DecimalDifferenceValue(a: bv8, m: bv8, b: bv8)
    requires IsBcd(a) && IsBcd(m) && b <= 1
    ensures DecimalValue(DecimalDifference(a, m, b)) == (DecimalValue(a) - DecimalValue(m) - b as int) % 100
  {
    DecimalDifferenceIsBcd(a, m, b);
    DecimalDifferenceHundreds(a, m, b);
    DecimalValueRange(DecimalDifference(a, m, b));
    WrapNibbleDownTakesSix(HighDigitDifference(a, m, b));
    BorrowedHundred(DecimalValue(a) - DecimalValue(m) - b as int, DecimalValue(DecimalDifference(a, m, b)),
                    NibbleBorrowDown(HighDigitDifference(a, m, b)) as int);
  }

  /** On BCD operands decimal SBC borrows exactly when the decimal difference is negative. */
  lemma {:induction false} DecimalDifferenceBorrow(a: bv8, m: bv8, b: bv8)
    requires IsBcd(a) && IsBcd(m) && b <= 1
    ensures DecimalBorrowOut(a, m, b) <==> DecimalValue(a) - DecimalValue(m) - b as int < 0
  {
    DecimalDifferenceIsBcd(a, m, b);
    DecimalDifferenceHundreds(a, m, b);
    DecimalValueRange(DecimalDifference(a, m, b));
    WrapNibbleDownTakesSix(HighDigitDifference(a, m, b));
    BorrowedHundred(DecimalValue(a) - DecimalValue(m) - b as int, DecimalValue(DecimalDifference(a, m, b)),
                    NibbleBorrowDown(HighDigitDifference(a, m, b)) as int);
  }

  /** On BCD operands the digits hold the decimal difference mod 100, with the hundreds borrowed. */
  lemma {:induction false} DecimalDifferenceCorrect(a: bv8, m: bv8, b: bv8)
    requires IsBcd(a) && IsBcd(m) && b <= 1
    ensures IsBcd(DecimalDifference(a, m, b))
    ensures DecimalValue(DecimalDifference(a, m, b)) == (DecimalValue(a) - DecimalValue(m) - b as int) % 100
    ensures DecimalBorrowOut(a, m, b) <==> DecimalValue(a) - DecimalValue(m) - b as int < 0
  {
    DecimalDifferenceIsBcd(a, m, b);
    DecimalDifferenceValue(a, m, b);
    DecimalDifferenceBorrow(a, m, b);
  }

  /** A difference written as a digit pair minus an optional borrowed hundred. */
  lemma BorrowedHundred(x: int, d: int, k: int)
    requires 0 <= d <= 99 && (k == 0 || k == 1) && x == d - 100 * k
    ensures d == x % 100 && (k == 1 <==> x < 0)
  {
  }

  // ----------------------------------------------------- decimal-mode quirks

  /** Decimal SBC's zero flag is binary SBC's: both test the wrapped difference. */
  lemma SubtractDecimalZeroIsBinary(p: StatusRegister, a: bv8, m: bv8)
    ensures SubtractDecimal(p, a, m).p.zero == SubtractBinary(p, a, m).p.zero
  {
    AddComplementValue(p, a, m, !m);
  }

  /** Decimal SBC's negative flag is binary SBC's. */
  lemma SubtractDecimalNegativeIsBinary(p: StatusRegister, a: bv8, m: bv8)
    ensures SubtractDecimal(p, a, m).p.negative == SubtractBinary(p, a, m).p.negative
  {
    ComplementSum(a, m, !m, p.carry);
  }

  /** Decimal SBC's overflow flag is binary SBC's. */
  lemma SubtractDecimalOverflowIsBinary(p: StatusRegister, a: bv8, m: bv8)
    ensures SubtractDecimal(p, a, m).p.overflow == SubtractBinary(p, a, m).p.overflow
  {
    ComplementSum(a, m, !m, p.carry);
  }

  /** Decimal ADC's zero flag is the binary sum's, whatever the decimal result. */
  lemma AddDecimalZeroIsBinary(p: StatusRegister, a: bv8, m: bv8)
    ensures AddDecimal(p, a, m).p.zero == AddBinary(p, a, m).p.zero
  {
    AddBinaryCorrect(p, a, m);
  }

  /**
   * 99 + 1 in decimal mode: the result is 00 with carry, yet zero is clear
   * (the binary sum is 0x9a) and negative is set (the unadjusted sum is 0xa0).
   */
  lemma AddDecimalQuirkExample()
    ensures AddDecimal(ClearStatus.(decimalMode := true), 0x99, 0x01).value == 0x00
    ensures AddDecimal(ClearStatus.(decimalMode := true), 0x99, 0x01).p.carry
    ensures !AddDecimal(ClearStatus.(decimalMode := true), 0x99, 0x01).p.zero
    ensures AddDecimal(ClearStatus.(decimalMode := true), 0x99, 0x01).p.negative
    ensures !AddDecimal(ClearStatus.(decimalMode := true), 0x99, 0x01).p.overflow
  {
  }
}
