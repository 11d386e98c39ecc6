/**
 * The processor around the executor (ch22-core/src/cpu.rs and
 * ch22-core/src/cpu/interrupt_due_state.rs): reset, one instruction at a
 * time, and the latch that decides which interrupt is due.
 */
module Cpu {
  import opened Registers
  import opened Words
  import opened Bus
  import I = Instructions
  import A = Addressing
  import opened Executor

  // ------------------------------------------------------- interrupt latch

  datatype InterruptType = NoInterrupt | Irq | Nmi

  /** The NMI line as last seen, and the interrupt waiting to be taken. */
  datatype InterruptDueState = InterruptDueState(previousNmi: bool, due: InterruptType)

  const DefaultDueState := InterruptDueState(false, NoInterrupt)

  /** The latch after sampling the NMI line. */
  function AfterNmi(s: InterruptDueState, nmi: bool): InterruptDueState {
    if s.previousNmi != nmi then
      InterruptDueState(nmi, if nmi then Nmi else s.due)
    else
      s
  }

  /** Whether the IRQ line is sampled at all: only with interrupts enabled and nothing already due. */
  predicate SamplesIrq(s: InterruptDueState, nmi: bool, interruptDisable: bool) {
    !interruptDisable && AfterNmi(s, nmi).due == NoInterrupt
  }

  /**
   * NMI is edge-triggered: a rising edge makes it due, over a pending IRQ.
   * IRQ is level-triggered: it becomes due only when interrupts are enabled
   * and nothing is due yet. The result is characterised case by case below.
   */
  function UpdateInterruptDueState(s: InterruptDueState, nmi: bool, irq: bool, interruptDisable: bool): (r: InterruptDueState)
    ensures r.previousNmi == nmi
    ensures r.due == Nmi <==> s.due == Nmi || (!s.previousNmi && nmi)
    ensures r.due == Irq <==>
      !(!s.previousNmi && nmi) && (s.due == Irq || (s.due == NoInterrupt && !interruptDisable && irq))
    ensures r.due == NoInterrupt <==>
      !(!s.previousNmi && nmi) && s.due == NoInterrupt && (interruptDisable || !irq)
  {
    var n := AfterNmi(s, nmi);
    if SamplesIrq(s, nmi, interruptDisable) && irq then n.(due := Irq) else n
  }

  /** A pending NMI is never replaced. */
  lemma NmiStaysDue(s: InterruptDueState, nmi: bool, irq: bool, interruptDisable: bool)
    requires s.due == Nmi
    ensures UpdateInterruptDueState(s, nmi, irq, interruptDisable).due == Nmi
  {
  }

  /** An NMI line held high does not make a second NMI due: only the edge counts. */
  lemma NmiLevelIgnored(s: InterruptDueState, irq: bool, interruptDisable: bool)
    requires s.previousNmi && s.due != Nmi
    ensures UpdateInterruptDueState(s, true, irq, interruptDisable).due != Nmi
  {
  }

  /** When the IRQ line is not sampled, its level makes no difference. */
  lemma UnsampledIrqIgnored(s: InterruptDueState, nmi: bool, interruptDisable: bool)
    requires !SamplesIrq(s, nmi, interruptDisable)
    ensures UpdateInterruptDueState(s, nmi, true, interruptDisable) == UpdateInterruptDueState(s, nmi, false, interruptDisable)
  {
  }

  /** Sampling the same lines twice changes nothing the second time. */
  lemma UpdateIdempotent(s: InterruptDueState, nmi: bool, irq: bool, interruptDisable: bool)
    ensures var r := UpdateInterruptDueState(s, nmi, irq, interruptDisable);
      UpdateInterruptDueState(r, nmi, irq, interruptDisable) == r
  {
  }

  // -------------------------------------------------------------- the CPU

  datatype CpuState = CpuState(m: Machine, interrupts: InterruptDueState)

  /** The register file after reset, with the program counter read from the reset vector. */
  function ResetRegisters(pc: bv16): Registers {
    Registers(pc, 0xff, 0, 0, 0, ClearStatus.(interruptDisable := true))
  }

  /** The reset vector's second byte, taken within the vector's page. */
  function ResetVectorHigh(): bv16 {
    ToAddress(SamePageAdd(Word(0xfc, 0xff), 1))
  }

  /** Reset reads the reset vector, loads the registers and clears the interrupt latch. */
  function Reset(c: CpuState): CpuState {
    var low := ReadAt(c.m, VectorAddress(ResetVector), Plain);
    var high := ReadAt(low.m, ResetVectorHigh(), Plain);
    CpuState(WithRegisters(high.m, ResetRegisters(Join(low.value, high.value))), DefaultDueState)
  }

  /** The normal instruction step never allows the untested opcodes. */
  function HandleNextInstruction(c: CpuState): Outcome {
    Execute(c.m, false)
  }

  // ------------------------------------------------------------ properties

  /** The reset vector's second byte is at 0xfffd, the vector's high byte. */
  lemma ResetVectorHighAddress()
    ensures ResetVectorHigh() == VectorHighAddress(ResetVector)
    ensures ResetVectorHigh() == A.NextPc(VectorAddress(ResetVector))
  {
    assert SamePageAdd(Word(0xfc, 0xff), 1) == Word(0xfd, 0xff);
  }

  /** After reset: S = 0xff, A = X = Y = 0, only interrupt-disable set, and the program counter from 0xfffc/0xfffd. */
  lemma ResetState(c: CpuState)
    ensures Reset(c).m.regs.s == 0xff
    ensures Reset(c).m.regs.a == 0 && Reset(c).m.regs.x == 0 && Reset(c).m.regs.y == 0
    ensures Reset(c).m.regs.p == StatusRegister(false, false, true, false, false, false)
    ensures Reset(c).m.regs.pc == Join(Peek(c.m.bus, 0xfffc), Peek(c.m.bus, 0xfffd))
    ensures Reset(c).interrupts == InterruptDueState(false, NoInterrupt)
  {
    ResetVectorHighAddress();
  }

  /** Reset performs exactly the two vector reads and writes nothing. */
  lemma ResetBusCycles(c: CpuState)
    ensures Reset(c).m.bus.memory == c.m.bus.memory
    ensures Reset(c).m.bus.trace == c.m.bus.trace + [Read(0xfffc, Plain), Read(0xfffd, Plain)]
  {
    ResetVectorHighAddress();
    var low := ReadAt(c.m, 0xfffc, Plain);
    assert low.m.bus.trace + [Read(0xfffd, Plain)] == c.m.bus.trace + [Read(0xfffc, Plain), Read(0xfffd, Plain)];
  }

  /** The flags after reset, as PHP would push them: I, bit 5 and the break bit. */
  lemma ResetStatusByte(c: CpuState)
    ensures Executor.PushedStatus(Reset(c).m.regs.p, BreakFlag) == 0x34
  {
  }

  /** An untested opcode always stops the normal instruction step. */
  lemma HandleNextInstructionRefusesUntested(c: CpuState)
    requires I.Untested(Peek(c.m.bus, c.m.regs.pc))
    ensures HandleNextInstruction(c) == Panicked(UntestedOpcode(Peek(c.m.bus, c.m.regs.pc)))
  {
    A.ReadImmediateEffect(c.m);
  }
}
