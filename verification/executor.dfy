/**
 * The instruction executor (ch22-core/src/cpu/executor.rs): fetches an
 * opcode, runs the helper the dispatch table names, and reports the end of
 * the instruction to the bus. Every helper is a function from the machine
 * after the opcode fetch to the machine after the instruction's cycles.
 */
module Executor {
  import opened CpuUtil
  import opened Registers
  import opened Words
  import opened Bus
  import opened Stack
  import opened Instructions
  import A = Addressing

  /** The interrupt vectors, each the address of a little-endian pointer in the top page. */
  datatype Vector = NmiVector | ResetVector | IrqBrkVector

  function VectorAddress(v: Vector): bv16 {
    match v
    case NmiVector => 0xfffa
    case ResetVector => 0xfffc
    case IrqBrkVector => 0xfffe
  }

  /** The address of a vector's high byte. */
  function VectorHighAddress(v: Vector): bv16 {
    match v
    case NmiVector => 0xfffb
    case ResetVector => 0xfffd
    case IrqBrkVector => 0xffff
  }

  /** Why `execute` stops the emulation. */
  datatype Panic = UntestedOpcode(opcode: bv8) | UnimplementedOpcode(opcode: bv8)

  datatype Outcome = Completed(m: Machine) | Panicked(reason: Panic)

  function WithRegisters(m: Machine, r: Registers): Machine {
    m.(regs := r)
  }

  function WithStatus(m: Machine, p: StatusRegister): Machine {
    m.(regs := m.regs.(p := p))
  }

  function WithPc(m: Machine, pc: bv16): Machine {
    m.(regs := m.regs.(pc := pc))
  }

  /** A read of the program counter whose value is discarded. */
  function PhantomPcRead(m: Machine): Machine {
    PhantomReadAt(m, m.regs.pc)
  }

  /** The operand byte of an operand, with the index registers as they are now. */
  function Data(m: Machine, o: Operand): Loaded {
    A.Data(m, ModeOf(o, m.regs))
  }

  function EffectiveAddress(m: Machine, o: Operand): Addressed
    requires o != Immediate
  {
    A.Address(m, ModeOf(o, m.regs))
  }

  /** The status byte as pushed: the flags ORed with the extra bits the pusher sets. */
  function PushedStatus(p: StatusRegister, extra: bv8): bv8 {
    StatusToByte(p) | extra
  }

  function AndBytes(a: bv8, b: bv8): bv8 {
    a & b
  }

  /** The byte a store writes, taken from the registers before the instruction's cycles. */
  function StoreValue(r: Registers, source: StoreSource): bv8 {
    match source
    case FromRegister(reg) => RegisterValue(r, reg)
    case AccumulatorAndX => AndBytes(r.a, r.x)
  }

  // ---------------------------------------------------------------- helpers

  function NopRead(m: Machine, o: Operand): Machine {
    Data(m, o).m
  }

  function StoreAt(m: Machine, value: bv8, o: Operand): Machine
    requires o != Immediate
  {
    var a := EffectiveAddress(m, o);
    WriteAt(a.m, a.address, value, CheckInterrupt)
  }

  /** Reads the byte, writes it back unchanged, then writes the result: three synchronised cycles. */
  function ReadModifyWriteReturnValue(m: Machine, op: UnaryOp, o: Operand): Loaded
    requires o != Immediate
  {
    var a := EffectiveAddress(m, o);
    var original := ReadAt(a.m, a.address, Sync);
    var m1 := WriteAt(original.m, a.address, original.value, Sync);
    var r := ApplyUnary(op, m1.regs.p, original.value);
    Loaded(r.value, WriteAt(WithStatus(m1, r.p), a.address, r.value, Sync))
  }

  function ReadModifyWrite(m: Machine, op: UnaryOp, o: Operand): Machine
    requires o != Immediate
  {
    ReadModifyWriteReturnValue(m, op, o).m
  }

  /** A read-modify-write whose result is then combined into the accumulator (SLO). */
  function ReadModifyWriteAccumulator(m: Machine, op: UnaryOp, bop: BinaryOp, o: Operand): Machine
    requires o != Immediate
  {
    var l := ReadModifyWriteReturnValue(m, op, o);
    var r := ApplyBinary(bop, l.m.regs.p, l.m.regs.a, l.value);
    WithRegisters(l.m, l.m.regs.(a := r.value, p := r.p))
  }

  /** ASL A, INX, DEY and the like: one phantom read, then the operation on the register. */
  function RegisterUnary(m: Machine, reg: Register, op: UnaryOp): Machine {
    var m1 := PhantomPcRead(m);
    var r := ApplyUnary(op, m1.regs.p, RegisterValue(m1.regs, reg));
    WithRegisters(m1, SetRegister(m1.regs, reg, r.value).(p := r.p))
  }

  function AccumulatorBinary(m: Machine, op: BinaryOp, o: Operand): Machine {
    var d := Data(m, o);
    var r := ApplyBinary(op, d.m.regs.p, d.m.regs.a, d.value);
    WithRegisters(d.m, d.m.regs.(a := r.value, p := r.p))
  }

  function ProcessorFlagsOp(m: Machine, f: Flag, on: bool): Machine {
    var m1 := PhantomPcRead(m);
    WithStatus(m1, SetFlag(m1.regs.p, f, on))
  }

  /** The return address `pc + offset`, wrapping. */
  function ReturnAddress(pc: bv16, offset: bv16): bv16 {
    pc + offset
  }

  /**
   * BRK and interrupts: pushes the return address and the flags ORed with
   * `extra`, sets interrupt-disable and loads the program counter from the vector.
   */
  function BreakInst(m: Machine, offset: bv16, extra: bv8, v: Vector): Machine {
    var m1 := PhantomPcRead(m);
    var m2 := Push16(m1, ReturnAddress(m1.regs.pc, offset));
    var m3 := Push(m2, PushedStatus(m2.regs.p, extra));
    var m4 := WithStatus(m3, m3.regs.p.(interruptDisable := true));
    var low := ReadAt(m4, VectorAddress(v), Plain);
    var high := ReadAt(low.m, VectorHighAddress(v), Plain);
    WithPc(high.m, Join(low.value, high.value))
  }

  /** JSR: the return address pushed is that of the operand's high byte, read after the push. */
  function JumpToSubroutine(m: Machine): Machine {
    var low := A.ReadImmediate(m);
    var m1 := PhantomStackRead(low.m);
    var m2 := Push16(m1, m1.regs.pc);
    var high := A.ReadImmediate(m2);
    WithPc(high.m, Join(low.value, high.value))
  }

  function Jump(m: Machine, o: Operand): Machine
    requires o != Immediate
  {
    var a := EffectiveAddress(m, o);
    WithPc(a.m, a.address)
  }

  function ReturnFromInterrupt(m: Machine): Machine {
    var m1 := PhantomStackRead(PhantomPcRead(m));
    var p := Pop(m1);
    var pc := Pop16(WithStatus(p.m, StatusFromByte(p.value)));
    WithPc(pc.m, pc.address)
  }

  /** RTS: the popped address is that of JSR's last byte, so one is added. */
  function ReturnFromSubroutine(m: Machine): Machine {
    var m1 := PhantomStackRead(PhantomPcRead(m));
    var pc := Pop16(m1);
    var m2 := PhantomPcRead(WithPc(pc.m, pc.address));
    WithPc(m2, A.NextPc(m2.regs.pc))
  }

  function PullAccumulator(m: Machine): Machine {
    var m1 := PhantomStackRead(PhantomPcRead(m));
    var v := Pop(m1);
    WithRegisters(v.m, v.m.regs.(a := v.value, p := UpdateZeroNegative(v.m.regs.p, v.value)))
  }

  function PushAccumulator(m: Machine): Machine {
    var m1 := PhantomPcRead(m);
    Push(m1, m1.regs.a)
  }

  function PullProcessorFlags(m: Machine): Machine {
    var m1 := PhantomStackRead(PhantomPcRead(m));
    var v := Pop(m1);
    WithStatus(v.m, StatusFromByte(v.value))
  }

  /** PHP pushes the flags with the break bit set. */
  function PushProcessorFlags(m: Machine): Machine {
    var m1 := PhantomPcRead(m);
    Push(m1, PushedStatus(m1.regs.p, BreakFlag))
  }

  /** Not taken: a phantom read and the operand skipped. Taken: the relative address. */
  function Branch(m: Machine, condition: bool): Machine {
    if !condition then
      var m1 := PhantomPcRead(m);
      WithPc(m1, A.NextPc(m1.regs.pc))
    else
      var a := A.RelativeAddress(m);
      WithPc(a.m, a.address)
  }

  /** CMP, CPX and CPY: carry when the register is at least the operand, zero when equal, negative from the difference. */
  function CompareFlags(p: StatusRegister, r: bv8, v: bv8): StatusRegister {
    p.(carry := r >= v, zero := r == v, negative := IsNegative(WrappingSubtract(r, v)))
  }

  function Compare(m: Machine, r: bv8, o: Operand): Machine {
    var d := Data(m, o);
    WithStatus(d.m, CompareFlags(d.m.regs.p, r, d.value))
  }

  function LoadRegister(m: Machine, reg: Register, o: Operand): Machine {
    var d := Data(m, o);
    WithRegisters(d.m, SetRegister(d.m.regs, reg, d.value).(p := UpdateZeroNegative(d.m.regs.p, d.value)))
  }

  function TransferRegister(m: Machine, value: bv8, to: Register): Machine {
    var m1 := PhantomPcRead(m);
    WithRegisters(m1, SetRegister(m1.regs, to, value).(p := UpdateZeroNegative(m1.regs.p, value)))
  }

  function TransferRegisterNoFlags(m: Machine, value: bv8, to: Register): Machine {
    var m1 := PhantomPcRead(m);
    WithRegisters(m1, SetRegister(m1.regs, to, value))
  }

  /**
   * SHY abs,X: stores Y ANDed with the high byte of the base address plus
   * one; when indexing crossed a page, the value stored also replaces the
   * high byte of the address written.
   */
  function StoreHighAddressAndY(m: Machine): Machine {
    var c := A.AbsoluteIndexedAddressWithCarry(m, m.regs.x);
    var low := LowByte(c.address);
    var high := HighByte(c.address);
    if c.carried then
      var value := AndBytes(c.m.regs.y, high);
      WriteAt(c.m, Join(low, value), value, CheckInterrupt)
    else
      var value := AndBytes(c.m.regs.y, WrappingAdd(high, 1));
      WriteAt(c.m, c.address, value, CheckInterrupt)
  }

  // --------------------------------------------------------------- dispatch

  /** Runs one decoded instruction; `m` is the machine after the opcode fetch. */
  function Perform(m: Machine, i: Instruction): Machine
    requires WellFormed(i)
  {
    var r := m.regs;
    match i
    case Break => BreakInst(m, 1, BreakFlag, IrqBrkVector)
    case NoOperation => PhantomPcRead(m)
    case NopRead(o) => NopRead(m, o)
    case AccumulatorBinary(bop, o) => AccumulatorBinary(m, bop, o)
    case ReadModifyWrite(uop, o) => ReadModifyWrite(m, uop, o)
    case ReadModifyWriteAccumulator(uop, bop, o) => ReadModifyWriteAccumulator(m, uop, bop, o)
    case RegisterUnary(reg, uop) => RegisterUnary(m, reg, uop)
    case ProcessorFlags(f, on) => ProcessorFlagsOp(m, f, on)
    case Branch(f, when) => Branch(m, FlagValue(r.p, f) == when)
    case JumpToSubroutine => JumpToSubroutine(m)
    case Jump(o) => Jump(m, o)
    case ReturnFromInterrupt => ReturnFromInterrupt(m)
    case ReturnFromSubroutine => ReturnFromSubroutine(m)
    case PullAccumulator => PullAccumulator(m)
    case PushAccumulator => PushAccumulator(m)
    case PullProcessorFlags => PullProcessorFlags(m)
    case PushProcessorFlags => PushProcessorFlags(m)
    case Store(source, o) => StoreAt(m, StoreValue(r, source), o)
    case StoreHighAddressAndY => StoreHighAddressAndY(m)
    case Transfer(from, to) => TransferRegister(m, RegisterValue(r, from), to)
    case TransferNoFlags(from, to) => TransferRegisterNoFlags(m, RegisterValue(r, from), to)
    case Load(to, o) => LoadRegister(m, to, o)
    case Compare(reg, o) => Compare(m, RegisterValue(r, reg), o)
  }

  /**
   * One instruction: the opcode fetch, the untested-opcode guard, the
   * dispatch, and the completion cycle. An opcode outside the table panics.
   */
  function Execute(m: Machine, allowUntestedInWild: bool): Outcome {
    var op := A.ReadImmediate(m);
    if Untested(op.value) && !allowUntestedInWild then
      Panicked(UntestedOpcode(op.value))
    else
      match Decode(op.value)
      case Unimplemented => Panicked(UnimplementedOpcode(op.value))
      case Implemented(i) =>
        DecodeWellFormed(op.value);
        Completed(CompleteAt(Perform(op.m, i)))
  }

  /** An interrupt: a phantom read, the BRK sequence with no offset and no break bit, and completion. */
  function Interrupt(m: Machine, nmi: bool): Machine {
    var m1 := PhantomPcRead(m);
    CompleteAt(BreakInst(m1, 0, 0, if nmi then NmiVector else IrqBrkVector))
  }
}
