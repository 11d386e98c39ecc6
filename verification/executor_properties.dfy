/**
 * What the executor's helpers guarantee (ch22-core/src/cpu/executor.rs):
 * the stack instructions undo one another, subroutine and interrupt returns
 * come back to the right place with the registers restored, and each helper
 * leaves the registers and the bus as the 6502 does.
 */
module ExecutorProperties {
  import opened CpuUtil
  import opened Registers
  import opened Words
  import opened Bus
  import opened Stack
  import I = Instructions
  import opened Executor
  import A = Addressing
  import B = BinaryOps

  // ------------------------------------------------------------ bus effects

  lemma PhantomPcReadEffect(m: Machine)
    ensures PhantomPcRead(m).regs == m.regs
    ensures PhantomPcRead(m).bus.memory == m.bus.memory
    ensures PhantomPcRead(m).bus.trace == m.bus.trace + [PhantomRead(m.regs.pc)]
  {
  }

  /** Three consecutive stack slots are distinct addresses. */
  lemma SlotsDiffer(s: bv8)
    ensures StackAddress(Below(s)) != StackAddress(s)
    ensures StackAddress(Below(Below(s))) != StackAddress(s)
    ensures StackAddress(Below(Below(s))) != StackAddress(Below(s))
  {
  }

  /** Popping three times undoes pushing three times. */
  lemma ThreeAboveBelow(s: bv8)
    ensures Above(Below(Below(Below(s)))) == Below(Below(s))
    ensures Above(Above(Below(Below(Below(s))))) == Below(s)
    ensures Above(Above(Above(Below(Below(Below(s)))))) == s
  {
  }

  /** The vectors are in the top page, never on the stack. */
  lemma VectorsOffStack(v: Vector, s: bv8)
    ensures VectorAddress(v) != StackAddress(s) && VectorHighAddress(v) != StackAddress(s)
  {
  }

  /** The high byte of each vector is the byte after its low byte. */
  lemma VectorHighFollows(v: Vector)
    ensures VectorHighAddress(v) == A.NextPc(VectorAddress(v))
  {
  }

  // -------------------------------------------------------- status on stack

  /** Pulling the flags pushed by an interrupt gives them back. */
  lemma PulledStatusPlain(p: StatusRegister)
    ensures StatusFromByte(PushedStatus(p, 0)) == p
  {
    StatusRoundTrip(p);
  }

  /** Pulling the flags pushed by BRK or PHP gives them back: the break bit is dropped. */
  lemma PulledStatusBreak(p: StatusRegister)
    ensures StatusFromByte(PushedStatus(p, BreakFlag)) == p
  {
  }

  /** The pushed status byte has the break bit set exactly when the pusher asks for it (BRK, PHP), not for interrupts. */
  lemma PushedBreakBit(p: StatusRegister, extra: bv8)
    requires extra == 0 || extra == BreakFlag
    ensures PushedStatus(p, extra) & BreakFlag != 0 <==> extra == BreakFlag
  {
  }

  // ----------------------------------------------------------- PHA and PLA

  /** PLA straight after PHA gives the accumulator back, with the stack pointer restored and Z and N set from it. */
  lemma PushPullAccumulator(m: Machine)
    ensures PullAccumulator(PushAccumulator(m)).regs.a == m.regs.a
    ensures PullAccumulator(PushAccumulator(m)).regs.s == m.regs.s
    ensures ZeroNegativeOf(PullAccumulator(PushAccumulator(m)).regs.p, m.regs.a)
  {
    var m1 := PhantomPcRead(m);
    PhantomPcReadEffect(m);
    var pushed := Push(m1, m1.regs.a);
    PushEffect(m1, m1.regs.a);
    var m2 := PhantomPcRead(pushed);
    PhantomPcReadEffect(pushed);
    var m3 := PhantomStackRead(m2);
    PhantomStackReadEffect(m2);
    PopEffect(m3);
    AboveBelow(m.regs.s);
    assert Peek(m3.bus, StackAddress(m.regs.s)) == m.regs.a;
  }

  /** PLP straight after PHP gives the flags back exactly, with the stack pointer restored. */
  lemma PushPullFlags(m: Machine)
    ensures PullProcessorFlags(PushProcessorFlags(m)).regs.p == m.regs.p
    ensures PullProcessorFlags(PushProcessorFlags(m)).regs.s == m.regs.s
  {
    var m1 := PhantomPcRead(m);
    PhantomPcReadEffect(m);
    var pushed := Push(m1, PushedStatus(m1.regs.p, BreakFlag));
    PushEffect(m1, PushedStatus(m1.regs.p, BreakFlag));
    var m2 := PhantomPcRead(pushed);
    PhantomPcReadEffect(pushed);
    var m3 := PhantomStackRead(m2);
    PhantomStackReadEffect(m2);
    PopEffect(m3);
    AboveBelow(m.regs.s);
    assert Peek(m3.bus, StackAddress(m.regs.s)) == PushedStatus(m.regs.p, BreakFlag);
    PulledStatusBreak(m.regs.p);
  }

  // ----------------------------------------------------------- JSR and RTS

  /** What JSR leaves: the address of its last byte on the stack, high byte first. */
  lemma JumpToSubroutineEffect(m: Machine)
    ensures JumpToSubroutine(m).regs.s == Below(Below(m.regs.s))
    ensures Peek(JumpToSubroutine(m).bus, StackAddress(m.regs.s)) == HighByte(A.NextPc(m.regs.pc))
    ensures Peek(JumpToSubroutine(m).bus, StackAddress(Below(m.regs.s))) == LowByte(A.NextPc(m.regs.pc))
  {
    var low := A.ReadImmediate(m);
    A.ReadImmediateEffect(m);
    var m1 := PhantomStackRead(low.m);
    PhantomStackReadEffect(low.m);
    var m2 := Push16(m1, m1.regs.pc);
    Push16Effect(m1, m1.regs.pc);
    SlotsDiffer(m.regs.s);
    var high := A.ReadImmediate(m2);
    A.ReadImmediateEffect(m2);
  }

  /** What RTS does: pops an address and continues one past it. */
  lemma ReturnFromSubroutineEffect(m: Machine)
    ensures ReturnFromSubroutine(m).regs.s == Above(Above(m.regs.s))
    ensures ReturnFromSubroutine(m).regs.pc == A.NextPc(
      Join(Peek(m.bus, StackAddress(Above(m.regs.s))), Peek(m.bus, StackAddress(Above(Above(m.regs.s))))))
  {
    var m0 := PhantomPcRead(m);
    PhantomPcReadEffect(m);
    var m1 := PhantomStackRead(m0);
    PhantomStackReadEffect(m0);
    var pc := Pop16(m1);
    Pop16Effect(m1);
    PhantomPcReadEffect(WithPc(pc.m, pc.address));
  }

  /** RTS straight after JSR continues at the instruction after the JSR, with the stack pointer restored. */
  lemma JsrRtsReturns(m: Machine)
    ensures ReturnFromSubroutine(JumpToSubroutine(m)).regs.pc == A.NextPc(A.NextPc(m.regs.pc))
    ensures ReturnFromSubroutine(JumpToSubroutine(m)).regs.s == m.regs.s
  {
    var j := JumpToSubroutine(m);
    JumpToSubroutineEffect(m);
    ReturnFromSubroutineEffect(j);
    AboveBelow(Below(m.regs.s));
    AboveBelow(m.regs.s);
    SplitJoin(A.NextPc(m.regs.pc));
  }

  // ----------------------------------------------------- BRK, IRQ and RTI

  /** The registers after the BRK sequence: three bytes pushed, interrupt-disable set, the vector loaded. */
  lemma BreakInstRegisters(m: Machine, offset: bv16, extra: bv8, v: Vector)
    ensures BreakInst(m, offset, extra, v).regs.s == Below(Below(Below(m.regs.s)))
    ensures BreakInst(m, offset, extra, v).regs.p == m.regs.p.(interruptDisable := true)
    ensures BreakInst(m, offset, extra, v).regs.pc ==
      Join(Peek(m.bus, VectorAddress(v)), Peek(m.bus, VectorHighAddress(v)))
  {
    var m1 := PhantomPcRead(m);
    PhantomPcReadEffect(m);
    var m2 := Push16(m1, ReturnAddress(m1.regs.pc, offset));
    Push16Effect(m1, ReturnAddress(m1.regs.pc, offset));
    var m3 := Push(m2, PushedStatus(m2.regs.p, extra));
    PushEffect(m2, PushedStatus(m2.regs.p, extra));
    VectorsOffStack(v, m.regs.s);
    VectorsOffStack(v, Below(m.regs.s));
    VectorsOffStack(v, Below(Below(m.regs.s)));
  }

  /** The stack after the BRK sequence: return address high, low, then the status byte. */
  lemma BreakInstStack(m: Machine, offset: bv16, extra: bv8, v: Vector)
    ensures Peek(BreakInst(m, offset, extra, v).bus, StackAddress(m.regs.s)) == HighByte(ReturnAddress(m.regs.pc, offset))
    ensures Peek(BreakInst(m, offset, extra, v).bus, StackAddress(Below(m.regs.s))) == LowByte(ReturnAddress(m.regs.pc, offset))
    ensures Peek(BreakInst(m, offset, extra, v).bus, StackAddress(Below(Below(m.regs.s)))) == PushedStatus(m.regs.p, extra)
  {
    var m1 := PhantomPcRead(m);
    PhantomPcReadEffect(m);
    var m2 := Push16(m1, ReturnAddress(m1.regs.pc, offset));
    Push16Effect(m1, ReturnAddress(m1.regs.pc, offset));
    var m3 := Push(m2, PushedStatus(m2.regs.p, extra));
    PushEffect(m2, PushedStatus(m2.regs.p, extra));
    SlotsDiffer(m.regs.s);
  }

  /** What RTI does: pulls the flags, then the return address. */
  lemma ReturnFromInterruptEffect(m: Machine)
    ensures ReturnFromInterrupt(m).regs.s == Above(Above(Above(m.regs.s)))
    ensures ReturnFromInterrupt(m).regs.p == StatusFromByte(Peek(m.bus, StackAddress(Above(m.regs.s))))
    ensures ReturnFromInterrupt(m).regs.pc ==
      Join(Peek(m.bus, StackAddress(Above(Above(m.regs.s)))), Peek(m.bus, StackAddress(Above(Above(Above(m.regs.s))))))
  {
    var m0 := PhantomPcRead(m);
    PhantomPcReadEffect(m);
    var m1 := PhantomStackRead(m0);
    PhantomStackReadEffect(m0);
    var p := Pop(m1);
    PopEffect(m1);
    Pop16Effect(WithStatus(p.m, StatusFromByte(p.value)));
  }

  /**
   * RTI straight after the BRK sequence returns to the pushed address with
   * the flags and the stack pointer as they were, whether or not the break
   * bit was pushed.
   */
  lemma BreakInstReturns(m: Machine, offset: bv16, extra: bv8, v: Vector)
    requires extra == 0 || extra == BreakFlag
    ensures ReturnFromInterrupt(BreakInst(m, offset, extra, v)).regs.pc == ReturnAddress(m.regs.pc, offset)
    ensures ReturnFromInterrupt(BreakInst(m, offset, extra, v)).regs.p == m.regs.p
    ensures ReturnFromInterrupt(BreakInst(m, offset, extra, v)).regs.s == m.regs.s
  {
    var b := BreakInst(m, offset, extra, v);
    BreakInstRegisters(m, offset, extra, v);
    BreakInstStack(m, offset, extra, v);
    ReturnFromInterruptEffect(b);
    ThreeAboveBelow(m.regs.s);
    SplitJoin(ReturnAddress(m.regs.pc, offset));
    if extra == 0 {
      PulledStatusPlain(m.regs.p);
    } else {
      PulledStatusBreak(m.regs.p);
    }
  }

  // ---------------------------------------------------------- registers kept

  /** `after` differs from `before` at most in the program counter. */
  predicate KeepsAllButPc(before: Registers, after: Registers) {
    after == before.(pc := after.pc)
  }

  /** Fetching an operand moves only the program counter. */
  lemma DataKeepsRegisters(m: Machine, mode: A.AddressMode)
    ensures KeepsAllButPc(m.regs, A.Data(m, mode).m.regs)
  {
    match mode
    case Immediate =>
      A.ReadImmediateEffect(m);
    case AbsoluteIndexed(index) =>
      A.ReadImmediate16Effect(m);
      A.IndexedDataEffect(A.ReadImmediate16(m), index);
    case IndirectIndexed(index) =>
      var z := A.ZeroPageAddress(m);
      A.ReadImmediateEffect(m);
      A.IndexedDataEffect(A.Read16(z.m, z.address, Plain), index);
    case _ =>
      AddressKeepsRegisters(m, mode);
      RecordKeepsState(A.Address(m, mode).m, Read(A.Address(m, mode).address, CheckInterrupt));
  }

  /** Forming an effective address moves only the program counter. */
  lemma AddressKeepsRegisters(m: Machine, mode: A.AddressMode)
    requires mode != A.Immediate
    ensures KeepsAllButPc(m.regs, A.Address(m, mode).m.regs)
  {
  }

  // --------------------------------------------------------------- compare

  /** A - M with no borrow in borrows out exactly when A < M. */
  lemma BorrowMeansBelow(a: bv8, m: bv8, borrow: bool, low: bv8)
    requires B.BorrowedDifference(a, m, 0, borrow, low)
    ensures borrow <==> a < m
  {
  }

  /** Compare's carry is the carry of SBC with the carry set: no borrow exactly when the register is at least the operand. */
  lemma CompareCarryIsSubtractCarry(p: StatusRegister, r: bv8, v: bv8)
    ensures CompareFlags(p, r, v).carry == B.SubtractBinary(p.(carry := true), r, v).p.carry
  {
    B.SubtractBinaryCorrect(p.(carry := true), r, v);
    var s := B.SubtractBinary(p.(carry := true), r, v);
    BorrowMeansBelow(r, v, !s.p.carry, s.value);
  }

  /** Compare's zero flag is that of SBC with the carry set. */
  lemma CompareZeroIsSubtractZero(p: StatusRegister, r: bv8, v: bv8)
    ensures CompareFlags(p, r, v).zero == B.SubtractBinary(p.(carry := true), r, v).p.zero
  {
    B.SubtractBinaryCorrect(p.(carry := true), r, v);
  }

  /** Compare's negative flag is that of SBC with the carry set. */
  lemma CompareNegativeIsSubtractNegative(p: StatusRegister, r: bv8, v: bv8)
    ensures CompareFlags(p, r, v).negative == B.SubtractBinary(p.(carry := true), r, v).p.negative
  {
    B.SubtractBinaryCorrect(p.(carry := true), r, v);
  }

  /** Compare sets only C, Z and N, and leaves A, X, Y and S alone. */
  lemma CompareKeepsRegisters(m: Machine, r: bv8, o: I.Operand)
    ensures Compare(m, r, o).regs.a == m.regs.a
    ensures Compare(m, r, o).regs.x == m.regs.x
    ensures Compare(m, r, o).regs.y == m.regs.y
    ensures Compare(m, r, o).regs.s == m.regs.s
    ensures SameControlFlags(m.regs.p, Compare(m, r, o).regs.p)
  {
    DataKeepsRegisters(m, I.ModeOf(o, m.regs));
  }

  // -------------------------------------------------------------- branches

  /** A branch not taken spends one phantom read and skips the offset byte. */
  lemma BranchNotTaken(m: Machine)
    ensures Branch(m, false).regs == m.regs.(pc := A.NextPc(m.regs.pc))
    ensures Branch(m, false).bus.memory == m.bus.memory
    ensures Branch(m, false).bus.trace == m.bus.trace + [PhantomRead(m.regs.pc)]
  {
  }

  /** A branch taken continues at the counter past the offset plus the sign-extended offset. */
  lemma BranchTaken(m: Machine)
    ensures Branch(m, true).regs.pc == A.NextPc(m.regs.pc) + A.SignExtend(Peek(m.bus, m.regs.pc))
    ensures KeepsAllButPc(m.regs, Branch(m, true).regs)
  {
    A.RelativeTarget(m);
    AddressKeepsRegisters(m, A.Relative);
  }

  /** The branch instruction tests its flag against the wanted value. */
  lemma BranchTest(m: Machine, f: I.Flag, when: bool)
    ensures Perform(m, I.Branch(f, when)) == Branch(m, I.FlagValue(m.regs.p, f) == when)
  {
  }

  // ----------------------------------------------------- read-modify-write

  /**
   * A read-modify-write reads the byte, writes it back, then writes the
   * operation's result, all three cycles synchronised and at one address.
   */
  lemma ReadModifyWriteEffect(m: Machine, op: I.UnaryOp, o: I.Operand)
    requires o != I.Immediate
    ensures var a := EffectiveAddress(m, o);
      var v := Peek(a.m.bus, a.address);
      var l := ReadModifyWriteReturnValue(m, op, o);
      && l.value == I.ApplyUnary(op, a.m.regs.p, v).value
      && Peek(l.m.bus, a.address) == l.value
      && l.m.bus.trace == a.m.bus.trace + [Read(a.address, Sync), Write(a.address, v, Sync), Write(a.address, l.value, Sync)]
  {
    var a := EffectiveAddress(m, o);
    var original := ReadAt(a.m, a.address, Sync);
    var m1 := WriteAt(original.m, a.address, original.value, Sync);
    var r := I.ApplyUnary(op, m1.regs.p, original.value);
    assert original.m.bus.trace == a.m.bus.trace + [Read(a.address, Sync)];
    assert m1.bus.trace == a.m.bus.trace + [Read(a.address, Sync), Write(a.address, original.value, Sync)];
  }

  /** A read-modify-write changes only the flags the operation sets, and the program counter. */
  lemma ReadModifyWriteRegisters(m: Machine, op: I.UnaryOp, o: I.Operand)
    requires o != I.Immediate
    ensures var a := EffectiveAddress(m, o);
      ReadModifyWrite(m, op, o).regs ==
        m.regs.(pc := a.m.regs.pc, p := I.ApplyUnary(op, m.regs.p, Peek(a.m.bus, a.address)).p)
  {
    AddressKeepsRegisters(m, I.ModeOf(o, m.regs));
  }

  // ---------------------------------------------------------------- stores

  /** A store writes the register's value, as it was before the instruction, at the effective address. */
  lemma StoreWritesValue(m: Machine, source: I.StoreSource, o: I.Operand)
    requires o != I.Immediate
    ensures Peek(Perform(m, I.Store(source, o)).bus, EffectiveAddress(m, o).address) == StoreValue(m.regs, source)
  {
  }

  /** A store changes no register but the program counter. */
  lemma StoreKeepsRegisters(m: Machine, source: I.StoreSource, o: I.Operand)
    requires o != I.Immediate
    ensures KeepsAllButPc(m.regs, Perform(m, I.Store(source, o)).regs)
  {
    AddressKeepsRegisters(m, I.ModeOf(o, m.regs));
  }

  // ------------------------------------------------- loads and transfers

  /** A load puts the operand in the register and sets Z and N from it. */
  lemma LoadSetsRegister(m: Machine, reg: I.Register, o: I.Operand)
    ensures I.RegisterValue(LoadRegister(m, reg, o).regs, reg) == Data(m, o).value
    ensures ZeroNegativeOf(LoadRegister(m, reg, o).regs.p, Data(m, o).value)
  {
  }

  /** A load leaves every other register as it was. */
  lemma LoadKeepsOthers(m: Machine, reg: I.Register, other: I.Register, o: I.Operand)
    requires other != reg
    ensures I.RegisterValue(LoadRegister(m, reg, o).regs, other) == I.RegisterValue(m.regs, other)
  {
    DataKeepsRegisters(m, I.ModeOf(o, m.regs));
  }

  /** A transfer copies the source register into the target, with Z and N from the value. */
  lemma TransferCopies(m: Machine, from: I.Register, to: I.Register)
    ensures I.RegisterValue(Perform(m, I.Transfer(from, to)).regs, to) == I.RegisterValue(m.regs, from)
    ensures ZeroNegativeOf(Perform(m, I.Transfer(from, to)).regs.p, I.RegisterValue(m.regs, from))
    ensures Perform(m, I.Transfer(from, to)).regs.pc == m.regs.pc
  {
  }

  /** TXS copies without touching the flags. */
  lemma TransferNoFlagsCopies(m: Machine, from: I.Register, to: I.Register)
    ensures I.RegisterValue(Perform(m, I.TransferNoFlags(from, to)).regs, to) == I.RegisterValue(m.regs, from)
    ensures Perform(m, I.TransferNoFlags(from, to)).regs.p == m.regs.p
  {
  }

  // ------------------------------------------------------------ interrupts

  /** The bus events of the BRK sequence: a phantom read, three pushes, and the two vector bytes. */
  lemma BreakInstTrace(m: Machine, offset: bv16, extra: bv8, v: Vector)
    ensures BreakInst(m, offset, extra, v).bus.trace == m.bus.trace + [
      PhantomRead(m.regs.pc),
      Write(StackAddress(m.regs.s), HighByte(ReturnAddress(m.regs.pc, offset)), Plain),
      Write(StackAddress(Below(m.regs.s)), LowByte(ReturnAddress(m.regs.pc, offset)), Plain),
      Write(StackAddress(Below(Below(m.regs.s))), PushedStatus(m.regs.p, extra), Plain),
      Read(VectorAddress(v), Plain),
      Read(VectorHighAddress(v), Plain)]
  {
    var m1 := PhantomPcRead(m);
    PhantomPcReadEffect(m);
    var m2 := Push16(m1, ReturnAddress(m1.regs.pc, offset));
    Push16Effect(m1, ReturnAddress(m1.regs.pc, offset));
    var m3 := Push(m2, PushedStatus(m2.regs.p, extra));
    PushEffect(m2, PushedStatus(m2.regs.p, extra));
  }

  /** An interrupt takes seven cycles, then reports completion. */
  lemma InterruptCycles(m: Machine, nmi: bool)
    ensures |Interrupt(m, nmi).bus.trace| == |m.bus.trace| + 8
    ensures Interrupt(m, nmi).bus.trace[|m.bus.trace| + 7] == Complete
  {
    var m1 := PhantomPcRead(m);
    BreakInstTrace(m1, 0, 0, if nmi then NmiVector else IrqBrkVector);
  }

  /** An interrupt pushes the flags without the break bit; BRK pushes them with it. */
  lemma InterruptPushesNoBreakBit(m: Machine, nmi: bool)
    ensures Peek(Interrupt(m, nmi).bus, StackAddress(Below(Below(m.regs.s)))) & BreakFlag == 0
  {
    var m1 := PhantomPcRead(m);
    BreakInstStack(m1, 0, 0, if nmi then NmiVector else IrqBrkVector);
    PushedBreakBit(m.regs.p, 0);
  }

  /** BRK pushes the flags with the break bit set, and the address two past the opcode. */
  lemma BreakPushesBreakBit(m: Machine)
    ensures Peek(Perform(m, I.Break).bus, StackAddress(Below(Below(m.regs.s)))) & BreakFlag != 0
    ensures Peek(Perform(m, I.Break).bus, StackAddress(Below(m.regs.s))) == LowByte(m.regs.pc + 1)
    ensures Peek(Perform(m, I.Break).bus, StackAddress(m.regs.s)) == HighByte(m.regs.pc + 1)
  {
    BreakInstStack(m, 1, BreakFlag, IrqBrkVector);
    PushedBreakBit(m.regs.p, BreakFlag);
  }

  /** An interrupt sets interrupt-disable and continues at the NMI or IRQ vector. */
  lemma InterruptVectors(m: Machine, nmi: bool)
    ensures Interrupt(m, nmi).regs.p.interruptDisable
    ensures Interrupt(m, nmi).regs.pc ==
      if nmi then Join(Peek(m.bus, 0xfffa), Peek(m.bus, 0xfffb)) else Join(Peek(m.bus, 0xfffe), Peek(m.bus, 0xffff))
  {
    var m1 := PhantomPcRead(m);
    BreakInstRegisters(m1, 0, 0, if nmi then NmiVector else IrqBrkVector);
  }

  /** RTI after an interrupt resumes the interrupted instruction stream with the flags and stack pointer restored. */
  lemma InterruptReturns(m: Machine, nmi: bool)
    ensures ReturnFromInterrupt(Interrupt(m, nmi)).regs.pc == m.regs.pc
    ensures ReturnFromInterrupt(Interrupt(m, nmi)).regs.p == m.regs.p
    ensures ReturnFromInterrupt(Interrupt(m, nmi)).regs.s == m.regs.s
  {
    var v := if nmi then NmiVector else IrqBrkVector;
    var m1 := PhantomPcRead(m);
    var b := BreakInst(m1, 0, 0, v);
    BreakInstReturns(m1, 0, 0, v);
    ReturnFromInterruptEffect(b);
    ReturnFromInterruptEffect(CompleteAt(b));
  }

  // ------------------------------------------------------------------- SHY

  /** Indexing across a page adds one to the high byte. */
  lemma CrossedHighByte(base: bv16, offset: bv8)
    requires A.PageOf(A.WrappingAdd16(base, A.ZeroExtend(offset))) != A.PageOf(base)
    ensures HighByte(A.WrappingAdd16(base, A.ZeroExtend(offset))) == WrappingAdd(HighByte(base), 1)
  {
  }

  /** Indexing within a page keeps the high byte. */
  lemma UncrossedHighByte(base: bv16, offset: bv8)
    requires A.PageOf(A.WrappingAdd16(base, A.ZeroExtend(offset))) == A.PageOf(base)
    ensures HighByte(A.WrappingAdd16(base, A.ZeroExtend(offset))) == HighByte(base)
  {
  }

  /**
   * SHY stores Y ANDed with one more than the base address's high byte,
   * whether or not the index crossed a page; on a crossing that byte is also
   * the high byte of the address written.
   */
  lemma StoreHighAddressAndYValue(m: Machine)
    ensures var base := A.ReadImmediate16(m).address;
      var value := AndBytes(m.regs.y, WrappingAdd(HighByte(base), 1));
      var c := A.AbsoluteIndexedAddressWithCarry(m, m.regs.x);
      var target := if c.carried then Join(LowByte(c.address), value) else c.address;
      StoreHighAddressAndY(m).bus.trace == c.m.bus.trace + [Write(target, value, CheckInterrupt)]
  {
    var base := A.ReadImmediate16(m);
    A.ReadImmediate16Effect(m);
    var o := A.AddressOffsetUnsigned(base.address, m.regs.x);
    if A.PageOf(A.WrappingAdd16(base.address, A.ZeroExtend(m.regs.x))) != A.PageOf(base.address) {
      CrossedHighByte(base.address, m.regs.x);
    } else {
      UncrossedHighByte(base.address, m.regs.x);
    }
  }

  // --------------------------------------------------------------- execute

  /**
   * `execute` panics exactly for an opcode outside the table, and for an
   * untested opcode unless those are allowed; otherwise the instruction ends
   * with the completion event.
   */
  lemma ExecutePanics(m: Machine, allow: bool)
    ensures var op := Peek(m.bus, m.regs.pc);
      Execute(m, allow).Panicked? <==> (I.Untested(op) && !allow) || I.Decode(op).Unimplemented?
  {
    A.ReadImmediateEffect(m);
  }

  /** Which panic: the untested check comes first. */
  lemma ExecutePanicReason(m: Machine, allow: bool)
    requires Execute(m, allow).Panicked?
    ensures var op := Peek(m.bus, m.regs.pc);
      Execute(m, allow).reason == if I.Untested(op) && !allow then UntestedOpcode(op) else UnimplementedOpcode(op)
  {
    A.ReadImmediateEffect(m);
  }

  /** A completed instruction's last bus event is the completion. */
  lemma ExecuteCompletes(m: Machine, allow: bool)
    requires Execute(m, allow).Completed?
    ensures var t := Execute(m, allow).m.bus.trace;
      |t| > 0 && t[|t| - 1] == Complete
  {
  }
}
