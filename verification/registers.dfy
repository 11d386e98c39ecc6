/**
 * The 6502 register file and the status register with its byte encoding
 * (ch22-core/src/cpu/registers.rs).
 */
module Registers {
  import opened CpuUtil

  const CarryFlag: bv8 := 0x01
  const ZeroFlag: bv8 := 0x02
  const InterruptDisableFlag: bv8 := 0x04
  const DecimalModeFlag: bv8 := 0x08
  const BreakFlag: bv8 := 0x10
  const Bit5Flag: bv8 := 0x20
  const OverflowFlag: bv8 := 0x40
  const NegativeFlag: bv8 := 0x80

  /** The six flags the processor keeps; the break and bit-5 flags exist only on the stack. */
  datatype StatusRegister = StatusRegister(
    carry: bool,
    zero: bool,
    interruptDisable: bool,
    decimalMode: bool,
    overflow: bool,
    negative: bool)

  const ClearStatus := StatusRegister(false, false, false, false, false, false)

  datatype Registers = Registers(pc: bv16, s: bv8, a: bv8, x: bv8, y: bv8, p: StatusRegister)

  /** The value an instruction computes together with the flags it leaves. */
  datatype AluResult = AluResult(value: bv8, p: StatusRegister)

  /** The flag constants in bit order. */
  const FlagBits: seq<bv8> := [CarryFlag, ZeroFlag, InterruptDisableFlag, DecimalModeFlag,
                               BreakFlag, Bit5Flag, OverflowFlag, NegativeFlag]

  /** Constant `i` is exactly bit `i`, so the eight constants are distinct single bits. */
  lemma FlagConstantsAreBits()
    ensures |FlagBits| == 8
    ensures forall i :: 0 <= i < 8 ==> FlagBits[i] == (1 as bv8) << i
    ensures forall i, j :: 0 <= i < j < 8 ==> FlagBits[i] & FlagBits[j] == 0
  {
  }

  function FlagIf(on: bool, flag: bv8): bv8 {
    if on then flag else 0
  }

  /** Decodes a byte pulled from the stack: bits 0, 1, 2, 3, 6 and 7 give C, Z, I, D, V and N. */
  function StatusFromByte(b: bv8): (p: StatusRegister)
    ensures p.carry <==> b & 0x01 == 0x01
    ensures p.zero <==> b & 0x02 == 0x02
    ensures p.interruptDisable <==> b & 0x04 == 0x04
    ensures p.decimalMode <==> b & 0x08 == 0x08
    ensures p.overflow <==> b & 0x40 == 0x40
    ensures p.negative <==> b & 0x80 == 0x80
  {
    StatusRegister(
      b & CarryFlag != 0,
      b & ZeroFlag != 0,
      b & InterruptDisableFlag != 0,
      b & DecimalModeFlag != 0,
      b & OverflowFlag != 0,
      b & NegativeFlag != 0)
  }

  /** Encodes the flags as pushed to the stack: bit 5 always set, the break bit always clear. */
  function StatusToByte(p: StatusRegister): (b: bv8)
    ensures b & Bit5Flag == Bit5Flag
    ensures b & BreakFlag == 0
    ensures b & CarryFlag != 0 <==> p.carry
    ensures b & ZeroFlag != 0 <==> p.zero
    ensures b & InterruptDisableFlag != 0 <==> p.interruptDisable
    ensures b & DecimalModeFlag != 0 <==> p.decimalMode
    ensures b & OverflowFlag != 0 <==> p.overflow
    ensures b & NegativeFlag != 0 <==> p.negative
  {
    FlagIf(p.carry, CarryFlag)
    | FlagIf(p.zero, ZeroFlag)
    | FlagIf(p.interruptDisable, InterruptDisableFlag)
    | FlagIf(p.decimalMode, DecimalModeFlag)
    | Bit5Flag
    | FlagIf(p.overflow, OverflowFlag)
    | FlagIf(p.negative, NegativeFlag)
  }

  /** Encoding then decoding loses nothing. */
  lemma StatusRoundTrip(p: StatusRegister)
    ensures StatusFromByte(StatusToByte(p)) == p
  {
  }

  /** Decoding then encoding keeps every bit except that bit 5 is forced on and the break bit off. */
  lemma ByteRoundTrip(b: bv8)
    ensures StatusToByte(StatusFromByte(b)) == (b | Bit5Flag) & !BreakFlag
  {
  }

  /** The zero and negative flags after a result `v`; every other flag is kept. */
  function UpdateZeroNegative(p: StatusRegister, v: bv8): StatusRegister {
    p.(zero := v == 0, negative := IsNegative(v))
  }

  /** `q` reports `v` as zero exactly when it is 0 and as negative exactly when bit 7 is set. */
  predicate ZeroNegativeOf(q: StatusRegister, v: bv8) {
    (q.zero <==> v == 0) && (q.negative <==> IsNegative(v))
  }

  /** Interrupt-disable, decimal mode and overflow are the same in `p` and `q`. */
  predicate SameControlFlags(p: StatusRegister, q: StatusRegister) {
    q.interruptDisable == p.interruptDisable && q.decimalMode == p.decimalMode && q.overflow == p.overflow
  }
}
