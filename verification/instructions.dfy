/**
 * The instruction set the executor implements (ch22-core/src/cpu/executor.rs,
 * `execute`): each opcode names one of the executor's helpers together with
 * the ALU operation, register, flag and addressing function it passes.
 * `Decode` is that dispatch table; the helpers themselves are in `Executor`.
 */
module Instructions {
  import opened Registers
  import U = UnaryOps
  import B = BinaryOps
  import A = Addressing

  /** The read-modify-write operations (unary_ops.rs). */
  datatype UnaryOp = ShiftLeft | ShiftRight | RotateLeft | RotateRight | Increment | Decrement

  function ApplyUnary(op: UnaryOp, p: StatusRegister, v: bv8): AluResult {
    match op
    case ShiftLeft => U.ShiftLeft(p, v)
    case ShiftRight => U.ShiftRight(p, v)
    case RotateLeft => U.RotateLeft(p, v)
    case RotateRight => U.RotateRight(p, v)
    case Increment => U.Increment(p, v)
    case Decrement => U.Decrement(p, v)
  }

  /** The accumulator operations (binary_ops.rs). */
  datatype BinaryOp =
    | Or | And | Xor | BitTest | AndNegativeCarry | AndShiftRight | AddWithCarry | SubtractWithCarry

  function ApplyBinary(op: BinaryOp, p: StatusRegister, a: bv8, m: bv8): AluResult {
    match op
    case Or => B.Or(p, a, m)
    case And => B.And(p, a, m)
    case Xor => B.Xor(p, a, m)
    case BitTest => B.BitTest(p, a, m)
    case AndNegativeCarry => B.AndNegativeCarry(p, a, m)
    case AndShiftRight => B.AndShiftRight(p, a, m)
    case AddWithCarry => B.AddWithCarry(p, a, m)
    case SubtractWithCarry => B.SubtractWithCarry(p, a, m)
  }

  /** The addressing functions the dispatch table names, the index register being chosen by the name. */
  datatype Operand =
    | Immediate
    | ZeroPage | ZeroPageX | ZeroPageY
    | Absolute | AbsoluteX | AbsoluteY
    | Indirect | IndexedIndirectX | IndirectIndexedY

  /** The addressing mode an operand names, with the index register's current value. */
  function ModeOf(o: Operand, r: Registers): A.AddressMode {
    match o
    case Immediate => A.Immediate
    case ZeroPage => A.ZeroPage
    case ZeroPageX => A.ZeroPageIndexed(r.x)
    case ZeroPageY => A.ZeroPageIndexed(r.y)
    case Absolute => A.Absolute
    case AbsoluteX => A.AbsoluteIndexed(r.x)
    case AbsoluteY => A.AbsoluteIndexed(r.y)
    case Indirect => A.Indirect
    case IndexedIndirectX => A.IndexedIndirect(r.x)
    case IndirectIndexedY => A.IndirectIndexed(r.y)
  }

  datatype Register = Accumulator | XIndex | YIndex | StackPointer

  function RegisterValue(r: Registers, reg: Register): bv8 {
    match reg
    case Accumulator => r.a
    case XIndex => r.x
    case YIndex => r.y
    case StackPointer => r.s
  }

  function SetRegister(r: Registers, reg: Register, v: bv8): Registers {
    match reg
    case Accumulator => r.(a := v)
    case XIndex => r.(x := v)
    case YIndex => r.(y := v)
    case StackPointer => r.(s := v)
  }

  datatype Flag = Carry | Zero | InterruptDisable | DecimalMode | Overflow | Negative

  function FlagValue(p: StatusRegister, f: Flag): bool {
    match f
    case Carry => p.carry
    case Zero => p.zero
    case InterruptDisable => p.interruptDisable
    case DecimalMode => p.decimalMode
    case Overflow => p.overflow
    case Negative => p.negative
  }

  function SetFlag(p: StatusRegister, f: Flag, on: bool): StatusRegister {
    match f
    case Carry => p.(carry := on)
    case Zero => p.(zero := on)
    case InterruptDisable => p.(interruptDisable := on)
    case DecimalMode => p.(decimalMode := on)
    case Overflow => p.(overflow := on)
    case Negative => p.(negative := on)
  }

  /** What a store writes: a register, or the accumulator ANDed with X (SAX). */
  datatype StoreSource = FromRegister(reg: Register) | AccumulatorAndX

  /** One executor helper per constructor, with the arguments the dispatch table passes it. */
  datatype Instruction =
    | Break
    | NoOperation
    | NopRead(operand: Operand)
    | AccumulatorBinary(bop: BinaryOp, operand: Operand)
    | ReadModifyWrite(uop: UnaryOp, operand: Operand)
    | ReadModifyWriteAccumulator(uop: UnaryOp, bop: BinaryOp, operand: Operand)
    | RegisterUnary(reg: Register, uop: UnaryOp)
    | ProcessorFlags(flag: Flag, on: bool)
    | Branch(flag: Flag, when: bool)
    | JumpToSubroutine
    | Jump(operand: Operand)
    | ReturnFromInterrupt
    | ReturnFromSubroutine
    | PullAccumulator
    | PushAccumulator
    | PullProcessorFlags
    | PushProcessorFlags
    | Store(source: StoreSource, operand: Operand)
    | StoreHighAddressAndY
    | Transfer(from: Register, to: Register)
    | TransferNoFlags(from: Register, to: Register)
    | Load(to: Register, operand: Operand)
    | Compare(reg: Register, operand: Operand)

  datatype Decoded = Implemented(instruction: Instruction) | Unimplemented

  /** The opcodes whose implementation has no single-step test; they run only when explicitly allowed. */
  predicate Untested(opcode: bv8) {
    opcode in {0x35, 0x36, 0x41, 0x56, 0x5e, 0xe1}
  }

  /** The dispatch table, one function per row of the opcode matrix. The comments give the mnemonics; 0xaa is TAX and 0xc9 is CMP immediate. */
  function Decode(opcode: bv8): Decoded {
    match opcode >> 4
    case 0x0 => Row0(opcode)
    case 0x1 => Row1(opcode)
    case 0x2 => Row2(opcode)
    case 0x3 => Row3(opcode)
    case 0x4 => Row4(opcode)
    case 0x5 => Row5(opcode)
    case 0x6 => Row6(opcode)
    case 0x7 => Row7(opcode)
    case 0x8 => Row8(opcode)
    case 0x9 => Row9(opcode)
    case 0xa => RowA(opcode)
    case 0xb => RowB(opcode)
    case 0xc => RowC(opcode)
    case 0xd => RowD(opcode)
    case 0xe => RowE(opcode)
    case _ => RowF(opcode)
  }

  function Row0(opcode: bv8): Decoded {
    match opcode
    case 0x00 => Implemented(Break)
    case 0x01 => Implemented(AccumulatorBinary(Or, IndexedIndirectX))
    case 0x04 => Implemented(NopRead(ZeroPage))                           // DOP zp
    case 0x05 => Implemented(AccumulatorBinary(Or, ZeroPage))
    case 0x06 => Implemented(ReadModifyWrite(ShiftLeft, ZeroPage))
    case 0x07 => Implemented(ReadModifyWriteAccumulator(ShiftLeft, Or, ZeroPage))   // SLO zp
    case 0x08 => Implemented(PushProcessorFlags)
    case 0x09 => Implemented(AccumulatorBinary(Or, Immediate))
    case 0x0a => Implemented(RegisterUnary(Accumulator, ShiftLeft))
    case 0x0b => Implemented(AccumulatorBinary(AndNegativeCarry, Immediate))        // ANC imm
    case 0x0d => Implemented(AccumulatorBinary(Or, Absolute))
    case 0x0e => Implemented(ReadModifyWrite(ShiftLeft, Absolute))
    case _ => Unimplemented
  }

  function Row1(opcode: bv8): Decoded {
    match opcode
    case 0x10 => Implemented(Branch(Negative, false))                     // BPL
    case 0x11 => Implemented(AccumulatorBinary(Or, IndirectIndexedY))
    case 0x15 => Implemented(AccumulatorBinary(Or, ZeroPageX))
    case 0x16 => Implemented(ReadModifyWrite(ShiftLeft, ZeroPageX))
    case 0x18 => Implemented(ProcessorFlags(Carry, false))                // CLC
    case 0x19 => Implemented(AccumulatorBinary(Or, AbsoluteY))
    case 0x1d => Implemented(AccumulatorBinary(Or, AbsoluteX))
    case 0x1e => Implemented(ReadModifyWrite(ShiftLeft, AbsoluteX))
    case _ => Unimplemented
  }

  function Row2(opcode: bv8): Decoded {
    match opcode
    case 0x20 => Implemented(JumpToSubroutine)
    case 0x21 => Implemented(AccumulatorBinary(And, IndexedIndirectX))
    case 0x24 => Implemented(AccumulatorBinary(BitTest, ZeroPage))
    case 0x25 => Implemented(AccumulatorBinary(And, ZeroPage))
    case 0x26 => Implemented(ReadModifyWrite(RotateLeft, ZeroPage))
    case 0x28 => Implemented(PullProcessorFlags)
    case 0x29 => Implemented(AccumulatorBinary(And, Immediate))
    case 0x2a => Implemented(RegisterUnary(Accumulator, RotateLeft))
    case 0x2c => Implemented(AccumulatorBinary(BitTest, Absolute))
    case 0x2d => Implemented(AccumulatorBinary(And, Absolute))
    case 0x2e => Implemented(ReadModifyWrite(RotateLeft, Absolute))
    case _ => Unimplemented
  }

  function Row3(opcode: bv8): Decoded {
    match opcode
    case 0x30 => Implemented(Branch(Negative, true))                      // BMI
    case 0x31 => Implemented(AccumulatorBinary(And, IndirectIndexedY))
    case 0x35 => Implemented(AccumulatorBinary(And, ZeroPageX))
    case 0x36 => Implemented(ReadModifyWrite(RotateLeft, ZeroPageX))
    case 0x38 => Implemented(ProcessorFlags(Carry, true))                 // SEC
    case 0x39 => Implemented(AccumulatorBinary(And, AbsoluteY))
    case 0x3d => Implemented(AccumulatorBinary(And, AbsoluteX))
    case 0x3e => Implemented(ReadModifyWrite(RotateLeft, AbsoluteX))
    case _ => Unimplemented
  }

  function Row4(opcode: bv8): Decoded {
    match opcode
    case 0x40 => Implemented(ReturnFromInterrupt)
    case 0x41 => Implemented(AccumulatorBinary(Xor, IndexedIndirectX))
    case 0x45 => Implemented(AccumulatorBinary(Xor, ZeroPage))
    case 0x46 => Implemented(ReadModifyWrite(ShiftRight, ZeroPage))
    case 0x48 => Implemented(PushAccumulator)
    case 0x49 => Implemented(AccumulatorBinary(Xor, Immediate))
    case 0x4a => Implemented(RegisterUnary(Accumulator, ShiftRight))
    case 0x4b => Implemented(AccumulatorBinary(AndShiftRight, Immediate))           // ALR imm
    case 0x4c => Implemented(Jump(Absolute))
    case 0x4d => Implemented(AccumulatorBinary(Xor, Absolute))
    case 0x4e => Implemented(ReadModifyWrite(ShiftRight, Absolute))
    case _ => Unimplemented
  }

  function Row5(opcode: bv8): Decoded {
    match opcode
    case 0x50 => Implemented(Branch(Overflow, false))                     // BVC
    case 0x51 => Implemented(AccumulatorBinary(Xor, IndirectIndexedY))
    case 0x55 => Implemented(AccumulatorBinary(Xor, ZeroPageX))
    case 0x56 => Implemented(ReadModifyWrite(ShiftRight, ZeroPageX))
    case 0x58 => Implemented(ProcessorFlags(InterruptDisable, false))     // CLI
    case 0x59 => Implemented(AccumulatorBinary(Xor, AbsoluteY))
    case 0x5d => Implemented(AccumulatorBinary(Xor, AbsoluteX))
    case 0x5e => Implemented(ReadModifyWrite(ShiftRight, AbsoluteX))
    case _ => Unimplemented
  }

  function Row6(opcode: bv8): Decoded {
    match opcode
    case 0x60 => Implemented(ReturnFromSubroutine)
    case 0x61 => Implemented(AccumulatorBinary(AddWithCarry, IndexedIndirectX))
    case 0x65 => Implemented(AccumulatorBinary(AddWithCarry, ZeroPage))
    case 0x66 => Implemented(ReadModifyWrite(RotateRight, ZeroPage))
    case 0x68 => Implemented(PullAccumulator)
    case 0x69 => Implemented(AccumulatorBinary(AddWithCarry, Immediate))
    case 0x6a => Implemented(RegisterUnary(Accumulator, RotateRight))
    case 0x6c => Implemented(Jump(Indirect))
    case 0x6d => Implemented(AccumulatorBinary(AddWithCarry, Absolute))
    case 0x6e => Implemented(ReadModifyWrite(RotateRight, Absolute))
    case _ => Unimplemented
  }

  function Row7(opcode: bv8): Decoded {
    match opcode
    case 0x70 => Implemented(Branch(Overflow, true))                      // BVS
    case 0x71 => Implemented(AccumulatorBinary(AddWithCarry, IndirectIndexedY))
    case 0x75 => Implemented(AccumulatorBinary(AddWithCarry, ZeroPageX))
    case 0x76 => Implemented(ReadModifyWrite(RotateRight, ZeroPageX))
    case 0x78 => Implemented(ProcessorFlags(InterruptDisable, true))      // SEI
    case 0x79 => Implemented(AccumulatorBinary(AddWithCarry, AbsoluteY))
    case 0x7d => Implemented(AccumulatorBinary(AddWithCarry, AbsoluteX))
    case 0x7e => Implemented(ReadModifyWrite(RotateRight, AbsoluteX))
    case _ => Unimplemented
  }

  function Row8(opcode: bv8): Decoded {
    match opcode
    case 0x81 => Implemented(Store(FromRegister(Accumulator), IndexedIndirectX))
    case 0x84 => Implemented(Store(FromRegister(YIndex), ZeroPage))
    case 0x85 => Implemented(Store(FromRegister(Accumulator), ZeroPage))
    case 0x86 => Implemented(Store(FromRegister(XIndex), ZeroPage))
    case 0x87 => Implemented(Store(AccumulatorAndX, ZeroPage))            // SAX zp
    case 0x88 => Implemented(RegisterUnary(YIndex, Decrement))            // DEY
    case 0x8a => Implemented(Transfer(XIndex, Accumulator))               // TXA
    case 0x8c => Implemented(Store(FromRegister(YIndex), Absolute))
    case 0x8d => Implemented(Store(FromRegister(Accumulator), Absolute))
    case 0x8e => Implemented(Store(FromRegister(XIndex), Absolute))
    case _ => Unimplemented
  }

  function Row9(opcode: bv8): Decoded {
    match opcode
    case 0x90 => Implemented(Branch(Carry, false))                        // BCC
    case 0x91 => Implemented(Store(FromRegister(Accumulator), IndirectIndexedY))
    case 0x94 => Implemented(Store(FromRegister(YIndex), ZeroPageX))
    case 0x95 => Implemented(Store(FromRegister(Accumulator), ZeroPageX))
    case 0x96 => Implemented(Store(FromRegister(XIndex), ZeroPageY))
    case 0x98 => Implemented(Transfer(YIndex, Accumulator))               // TYA
    case 0x99 => Implemented(Store(FromRegister(Accumulator), AbsoluteY))
    case 0x9a => Implemented(TransferNoFlags(XIndex, StackPointer))       // TXS
    case 0x9c => Implemented(StoreHighAddressAndY)                        // SHY abs,X
    case 0x9d => Implemented(Store(FromRegister(Accumulator), AbsoluteX))
    case _ => Unimplemented
  }

  function RowA(opcode: bv8): Decoded {
    match opcode
    case 0xa0 => Implemented(Load(YIndex, Immediate))
    case 0xa1 => Implemented(Load(Accumulator, IndexedIndirectX))
    case 0xa2 => Implemented(Load(XIndex, Immediate))
    case 0xa4 => Implemented(Load(YIndex, ZeroPage))
    case 0xa5 => Implemented(Load(Accumulator, ZeroPage))
    case 0xa6 => Implemented(Load(XIndex, ZeroPage))
    case 0xa8 => Implemented(Transfer(Accumulator, YIndex))               // TAY
    case 0xa9 => Implemented(Load(Accumulator, Immediate))
    case 0xaa => Implemented(Transfer(Accumulator, XIndex))               // TAX
    case 0xac => Implemented(Load(YIndex, Absolute))
    case 0xad => Implemented(Load(Accumulator, Absolute))
    case 0xae => Implemented(Load(XIndex, Absolute))
    case _ => Unimplemented
  }

  function RowB(opcode: bv8): Decoded {
    match opcode
    case 0xb0 => Implemented(Branch(Carry, true))                         // BCS
    case 0xb1 => Implemented(Load(Accumulator, IndirectIndexedY))
    case 0xb4 => Implemented(Load(YIndex, ZeroPageX))
    case 0xb5 => Implemented(Load(Accumulator, ZeroPageX))
    case 0xb6 => Implemented(Load(XIndex, ZeroPageY))
    case 0xb8 => Implemented(ProcessorFlags(Overflow, false))             // CLV
    case 0xb9 => Implemented(Load(Accumulator, AbsoluteY))
    case 0xba => Implemented(Transfer(StackPointer, XIndex))              // TSX
    case 0xbc => Implemented(Load(YIndex, AbsoluteX))
    case 0xbd => Implemented(Load(Accumulator, AbsoluteX))
    case 0xbe => Implemented(Load(XIndex, AbsoluteY))
    case _ => Unimplemented
  }

  function RowC(opcode: bv8): Decoded {
    match opcode
    case 0xc0 => Implemented(Compare(YIndex, Immediate))
    case 0xc1 => Implemented(Compare(Accumulator, IndexedIndirectX))
    case 0xc4 => Implemented(Compare(YIndex, ZeroPage))
    case 0xc5 => Implemented(Compare(Accumulator, ZeroPage))
    case 0xc6 => Implemented(ReadModifyWrite(Decrement, ZeroPage))
    case 0xc8 => Implemented(RegisterUnary(YIndex, Increment))            // INY
    case 0xc9 => Implemented(Compare(Accumulator, Immediate))
    case 0xca => Implemented(RegisterUnary(XIndex, Decrement))            // DEX
    case 0xcc => Implemented(Compare(YIndex, Absolute))
    case 0xcd => Implemented(Compare(Accumulator, Absolute))
    case 0xce => Implemented(ReadModifyWrite(Decrement, Absolute))
    case _ => Unimplemented
  }

  function RowD(opcode: bv8): Decoded {
    match opcode
    case 0xd0 => Implemented(Branch(Zero, false))                         // BNE
    case 0xd1 => Implemented(Compare(Accumulator, IndirectIndexedY))
    case 0xd5 => Implemented(Compare(Accumulator, ZeroPageX))
    case 0xd6 => Implemented(ReadModifyWrite(Decrement, ZeroPageX))
    case 0xd8 => Implemented(ProcessorFlags(DecimalMode, false))          // CLD
    case 0xd9 => Implemented(Compare(Accumulator, AbsoluteY))
    case 0xdc => Implemented(NopRead(AbsoluteX))                          // NOP abs,X
    case 0xdd => Implemented(Compare(Accumulator, AbsoluteX))
    case 0xde => Implemented(ReadModifyWrite(Decrement, AbsoluteX))
    case _ => Unimplemented
  }

  function RowE(opcode: bv8): Decoded {
    match opcode
    case 0xe0 => Implemented(Compare(XIndex, Immediate))
    case 0xe1 => Implemented(AccumulatorBinary(SubtractWithCarry, IndexedIndirectX))
    case 0xe4 => Implemented(Compare(XIndex, ZeroPage))
    case 0xe5 => Implemented(AccumulatorBinary(SubtractWithCarry, ZeroPage))
    case 0xe6 => Implemented(ReadModifyWrite(Increment, ZeroPage))
    case 0xe8 => Implemented(RegisterUnary(XIndex, Increment))            // INX
    case 0xe9 => Implemented(AccumulatorBinary(SubtractWithCarry, Immediate))
    case 0xea => Implemented(NoOperation)
    case 0xec => Implemented(Compare(XIndex, Absolute))
    case 0xed => Implemented(AccumulatorBinary(SubtractWithCarry, Absolute))
    case 0xee => Implemented(ReadModifyWrite(Increment, Absolute))
    case _ => Unimplemented
  }

  function RowF(opcode: bv8): Decoded {
    match opcode
    case 0xf0 => Implemented(Branch(Zero, true))                          // BEQ
    case 0xf1 => Implemented(AccumulatorBinary(SubtractWithCarry, IndirectIndexedY))
    case 0xf5 => Implemented(AccumulatorBinary(SubtractWithCarry, ZeroPageX))
    case 0xf6 => Implemented(ReadModifyWrite(Increment, ZeroPageX))
    case 0xf8 => Implemented(ProcessorFlags(DecimalMode, true))           // SED
    case 0xf9 => Implemented(AccumulatorBinary(SubtractWithCarry, AbsoluteY))
    case 0xfd => Implemented(AccumulatorBinary(SubtractWithCarry, AbsoluteX))
    case 0xfe => Implemented(ReadModifyWrite(Increment, AbsoluteX))
    case _ => Unimplemented
  }

  // ------------------------------------------------------------ properties

  /** Instructions that form an effective address are never given the immediate operand, which has none. */
  predicate WellFormed(i: Instruction) {
    match i
    case ReadModifyWrite(_, o) => o != Immediate
    case ReadModifyWriteAccumulator(_, _, o) => o != Immediate
    case Jump(o) => o != Immediate
    case Store(_, o) => o != Immediate
    case _ => true
  }

  // The table is checked a quarter at a time, which keeps each proof small.

  lemma WellFormedFrom00(opcode: bv8)
    requires opcode < 0x40
    ensures Decode(opcode).Implemented? ==> WellFormed(Decode(opcode).instruction)
  {
  }

  lemma WellFormedFrom40(opcode: bv8)
    requires 0x40 <= opcode < 0x80
    ensures Decode(opcode).Implemented? ==> WellFormed(Decode(opcode).instruction)
  {
  }

  lemma WellFormedFrom80(opcode: bv8)
    requires 0x80 <= opcode < 0xa0
    ensures Decode(opcode).Implemented? ==> WellFormed(Decode(opcode).instruction)
  {
  }

  lemma WellFormedFromA0(opcode: bv8)
    requires 0xa0 <= opcode < 0xc0
    ensures Decode(opcode).Implemented? ==> WellFormed(Decode(opcode).instruction)
  {
  }

  lemma WellFormedFromC0(opcode: bv8)
    requires 0xc0 <= opcode
    ensures Decode(opcode).Implemented? ==> WellFormed(Decode(opcode).instruction)
  {
  }

  /** Every instruction in the table is well formed, so the executor's "no address for immediate" panic is unreachable. */
  lemma DecodeWellFormed(opcode: bv8)
    ensures Decode(opcode).Implemented? ==> WellFormed(Decode(opcode).instruction)
  {
    if opcode < 0x40 {
      WellFormedFrom00(opcode);
    } else if opcode < 0x80 {
      WellFormedFrom40(opcode);
    } else if opcode < 0xa0 {
      WellFormedFrom80(opcode);
    } else if opcode < 0xc0 {
      WellFormedFromA0(opcode);
    } else {
      WellFormedFromC0(opcode);
    }
  }

  /** Every untested opcode is in the table: allowing it runs an implementation. */
  lemma UntestedAreImplemented(opcode: bv8)
    ensures Untested(opcode) ==> Decode(opcode).Implemented?
  {
  }

  // The 6502's own instruction encoding `aaabbbcc`, as an independent reference for the table.

  /** The `aaa` field. */
  function OpField(opcode: bv8): bv8 {
    opcode >> 5
  }

  /** The `bbb` field. */
  function ModeField(opcode: bv8): bv8 {
    (opcode >> 2) & 7
  }

  /** The `cc` field. */
  function GroupField(opcode: bv8): bv8 {
    opcode & 3
  }

  /** The addressing modes of group one (`cc` = 01), in `bbb` order. */
  function GroupOneOperand(bbb: bv8): Operand {
    match bbb
    case 0 => IndexedIndirectX
    case 1 => ZeroPage
    case 2 => Immediate
    case 3 => Absolute
    case 4 => IndirectIndexedY
    case 5 => ZeroPageX
    case 6 => AbsoluteY
    case _ => AbsoluteX
  }

  /** Group one, in `aaa` order: ORA AND EOR ADC STA LDA CMP SBC. */
  function GroupOne(aaa: bv8, o: Operand): Instruction {
    match aaa
    case 0 => AccumulatorBinary(Or, o)
    case 1 => AccumulatorBinary(And, o)
    case 2 => AccumulatorBinary(Xor, o)
    case 3 => AccumulatorBinary(AddWithCarry, o)
    case 4 => Store(FromRegister(Accumulator), o)
    case 5 => Load(Accumulator, o)
    case 6 => Compare(Accumulator, o)
    case _ => AccumulatorBinary(SubtractWithCarry, o)
  }

  lemma LowerGroupOneDecodes(opcode: bv8)
    requires opcode < 0x80
    requires GroupField(opcode) == 1 && Decode(opcode).Implemented?
    ensures Decode(opcode).instruction == GroupOne(OpField(opcode), GroupOneOperand(ModeField(opcode)))
  {
  }

  lemma UpperGroupOneDecodes(opcode: bv8)
    requires opcode >= 0x80
    requires GroupField(opcode) == 1 && Decode(opcode).Implemented?
    ensures Decode(opcode).instruction == GroupOne(OpField(opcode), GroupOneOperand(ModeField(opcode)))
  {
  }

  /** Every implemented group-one opcode does what its `aaa` and `bbb` fields say. */
  lemma GroupOneDecodes(opcode: bv8)
    requires GroupField(opcode) == 1 && Decode(opcode).Implemented?
    ensures Decode(opcode).instruction == GroupOne(OpField(opcode), GroupOneOperand(ModeField(opcode)))
  {
    if opcode < 0x80 {
      LowerGroupOneDecodes(opcode);
    } else {
      UpperGroupOneDecodes(opcode);
    }
  }

  /** The branch flags, in the order of the top two bits of a branch opcode: N V C Z. */
  function BranchFlag(xx: bv8): Flag {
    match xx
    case 0 => Negative
    case 1 => Overflow
    case 2 => Carry
    case _ => Zero
  }

  /** The branches are the opcodes `xxy10000`: branch on flag `xx` being `y`. */
  lemma BranchesDecode(opcode: bv8)
    requires opcode & 0x1f == 0x10
    ensures Decode(opcode) == Implemented(Branch(BranchFlag(opcode >> 6), opcode & 0x20 != 0))
  {
  }

  /** The shifts and rotates of group two (`cc` = 10, `aaa` < 4): ASL ROL LSR ROR. */
  function ShiftOp(aaa: bv8): UnaryOp {
    match aaa
    case 0 => ShiftLeft
    case 1 => RotateLeft
    case 2 => ShiftRight
    case _ => RotateRight
  }

  /** The memory operands of group two, in `bbb` order; `bbb` = 2 is the accumulator. */
  function GroupTwoOperand(bbb: bv8): Operand {
    match bbb
    case 1 => ZeroPage
    case 3 => Absolute
    case 5 => ZeroPageX
    case _ => AbsoluteX
  }

  /** Every implemented shift or rotate acts on the accumulator or memory as its `bbb` field says. */
  lemma ShiftsDecode(opcode: bv8)
    requires GroupField(opcode) == 2 && OpField(opcode) < 4 && Decode(opcode).Implemented?
    ensures ModeField(opcode) == 2 ==>
      Decode(opcode).instruction == RegisterUnary(Accumulator, ShiftOp(OpField(opcode)))
    ensures ModeField(opcode) != 2 ==>
      Decode(opcode).instruction == ReadModifyWrite(ShiftOp(OpField(opcode)), GroupTwoOperand(ModeField(opcode)))
  {
  }
}
