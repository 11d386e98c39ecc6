/**
 * One-operand 6502 operations: shifts, rotates through carry, increment and
 * decrement (ch22-core/src/cpu/executor/unary_ops.rs). Each returns the new
 * byte and the flags; none of them touches interrupt-disable, decimal mode or
 * overflow.
 *
 * The byte arithmetic lives in small bit-vector functions (ShiftedLeft, ...);
 * the operations only assemble their results, and their contracts state the
 * exact arithmetic in sixteen bits, where nothing wraps.
 */
module UnaryOps {
  import opened CpuUtil
  import opened Registers

  /** The carry flag as the number 0 or 1 that arithmetic adds in. */
  function CarryBit(carry: bool): (c: bv8)
    ensures c <= 1 && (c == 1 <==> carry)
  {
    if carry then 1 else 0
  }

  /** The byte moved up one bit, bit 7 dropped and `low` filling bit 0. */
  function ShiftedLeft(v: bv8, low: bv8): bv8 {
    (v << 1) | low
  }

  /** The byte moved down one bit, bit 0 dropped and `high` filling bit 7. */
  function ShiftedRight(v: bv8, high: bv8): bv8 {
    (v >> 1) | high
  }

  function Incremented(v: bv8): bv8 {
    v + 1
  }

  function Decremented(v: bv8): bv8 {
    v - 1
  }

  /** Shifting left with a 0 or 1 coming in: twice the byte plus the bit, less 256 for the bit dropped. */
  lemma ShiftedLeftValue(v: bv8, low: bv8)
    requires low <= 1
    ensures 2 * v as bv16 + low as bv16 == 0x100 * (if v >= 0x80 then 1 else 0) + ShiftedLeft(v, low) as bv16
  {
  }

  /** Shifting right with bit 7 coming in as 0 or 0x80: half the byte, the dropped bit aside. */
  lemma ShiftedRightValue(v: bv8, high: bv8)
    requires high == 0 || high == 0x80
    ensures v as bv16 + 2 * high as bv16 == 2 * ShiftedRight(v, high) as bv16 + v as bv16 % 2
  {
  }

  /** The two steps by one undo each other. */
  lemma StepsUndo(v: bv8)
    ensures Decremented(Incremented(v)) == v && Incremented(Decremented(v)) == v
    ensures Incremented(v) as bv16 == (v as bv16 + 1) % 0x100
    ensures Decremented(v) as bv16 == (v as bv16 + 0xff) % 0x100
  {
  }

  /** ASL: the nine-bit result of doubling is carry:value. */
  function ShiftLeft(p: StatusRegister, v: bv8): (r: AluResult)
    ensures 2 * v as bv16 == 0x100 * CarryBit(r.p.carry) as bv16 + r.value as bv16
    ensures ZeroNegativeOf(r.p, r.value) && SameControlFlags(p, r.p)
  {
    ShiftedLeftValue(v, 0);
    var n := ShiftedLeft(v, 0);
    AluResult(n, UpdateZeroNegative(p, n).(carry := v & 0x80 != 0))
  }

  /** LSR: value is half the byte, carry the bit shifted out; never negative. */
  function ShiftRight(p: StatusRegister, v: bv8): (r: AluResult)
    ensures v as bv16 == 2 * r.value as bv16 + CarryBit(r.p.carry) as bv16
    ensures (r.p.zero <==> r.value == 0) && !r.p.negative
    ensures SameControlFlags(p, r.p)
  {
    ShiftedRightValue(v, 0);
    var n := ShiftedRight(v, 0);
    AluResult(n, p.(carry := v & 0x01 != 0, zero := n == 0, negative := false))
  }

  /** ROL: a nine-bit rotation, the old carry entering bit 0 and bit 7 leaving into the carry. */
  function RotateLeft(p: StatusRegister, v: bv8): (r: AluResult)
    ensures 2 * v as bv16 + CarryBit(p.carry) as bv16 == 0x100 * CarryBit(r.p.carry) as bv16 + r.value as bv16
    ensures ZeroNegativeOf(r.p, r.value) && SameControlFlags(p, r.p)
  {
    ShiftedLeftValue(v, CarryBit(p.carry));
    var n := ShiftedLeft(v, CarryBit(p.carry));
    AluResult(n, UpdateZeroNegative(p, n).(carry := v & 0x80 != 0))
  }

  /** ROR: the old carry enters bit 7 and bit 0 leaves into the carry. */
  function RotateRight(p: StatusRegister, v: bv8): (r: AluResult)
    ensures v as bv16 + 0x100 * CarryBit(p.carry) as bv16 == 2 * r.value as bv16 + CarryBit(r.p.carry) as bv16
    ensures ZeroNegativeOf(r.p, r.value) && SameControlFlags(p, r.p)
  {
    ShiftedRightValue(v, CarryBit(p.carry) * 0x80);
    var n := ShiftedRight(v, CarryBit(p.carry) * 0x80);
    AluResult(n, UpdateZeroNegative(p, n).(carry := v & 0x01 != 0))
  }

  /** INC: one more, wrapping from 0xff to 0; carry untouched. */
  function Increment(p: StatusRegister, v: bv8): (r: AluResult)
    ensures r.value as bv16 == (v as bv16 + 1) % 0x100
    ensures ZeroNegativeOf(r.p, r.value) && r.p.carry == p.carry && SameControlFlags(p, r.p)
  {
    StepsUndo(v);
    var n := Incremented(v);
    AluResult(n, UpdateZeroNegative(p, n))
  }

  /** DEC: one less, wrapping from 0 to 0xff; carry untouched. */
  function Decrement(p: StatusRegister, v: bv8): (r: AluResult)
    ensures r.value as bv16 == (v as bv16 + 0xff) % 0x100
    ensures ZeroNegativeOf(r.p, r.value) && r.p.carry == p.carry && SameControlFlags(p, r.p)
  {
    StepsUndo(v);
    var n := Decremented(v);
    AluResult(n, UpdateZeroNegative(p, n))
  }

  /** ROL and ROR are a nine-bit rotation through carry: ROR undoes ROL, value and carry. */
  lemma RotateRightUndoesRotateLeft(p: StatusRegister, v: bv8)
    ensures var l := RotateLeft(p, v);
      var r := RotateRight(l.p, l.value);
      r.value == v && r.p.carry == p.carry
  {
  }

  /** ROL undoes ROR, value and carry. */
  lemma RotateLeftUndoesRotateRight(p: StatusRegister, v: bv8)
    ensures var r := RotateRight(p, v);
      var l := RotateLeft(r.p, r.value);
      l.value == v && l.p.carry == p.carry
  {
  }

  /** Increment and decrement are mutual inverses on the value. */
  lemma IncrementDecrementInverse(p: StatusRegister, q: StatusRegister, v: bv8)
    ensures Decrement(q, Increment(p, v).value).value == v
    ensures Increment(q, Decrement(p, v).value).value == v
  {
  }
}
