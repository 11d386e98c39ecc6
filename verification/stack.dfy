/**
 * The hardware stack (ch22-core/src/cpu/executor.rs, `push`, `pop`,
 * `push_16`, `pop_16`, `phantom_stack_read`): page one of memory, addressed
 * by the stack pointer, growing downwards. A push writes at the slot the stack pointer selects and
 * then decrements it; a pop increments it and then reads.
 */
module Stack {
  import opened Registers
  import opened Words
  import opened Bus

  /** The address of stack slot `s`: 0x100 + s. */
  function StackAddress(s: bv8): bv16 {
    0x100 + s as bv16
  }

  /** The stack pointer after a push. */
  function Below(s: bv8): bv8 {
    s - 1
  }

  /** The stack pointer after a pop. */
  function Above(s: bv8): bv8 {
    s + 1
  }

  function WithStackPointer(m: Machine, s: bv8): Machine {
    m.(regs := m.regs.(s := s))
  }

  function Push(m: Machine, v: bv8): Machine {
    WithStackPointer(WriteAt(m, StackAddress(m.regs.s), v, Plain), Below(m.regs.s))
  }

  function Pop(m: Machine): Loaded {
    var s := Above(m.regs.s);
    ReadAt(WithStackPointer(m, s), StackAddress(s), Plain)
  }

  /** A read of the current stack slot whose value is discarded. */
  function PhantomStackRead(m: Machine): Machine {
    PhantomReadAt(m, StackAddress(m.regs.s))
  }

  /** Pushes the high byte first, so that the low byte ends up at the lower address. */
  function Push16(m: Machine, v: bv16): Machine {
    Push(Push(m, HighByte(v)), LowByte(v))
  }

  /** Pops the low byte, then the high byte. */
  function Pop16(m: Machine): Addressed {
    var low := Pop(m);
    var high := Pop(low.m);
    Addressed(Join(low.value, high.value), high.m)
  }

  // ------------------------------------------------------------ properties

  /** Stack slots are page one of memory, as `Word` addresses them. */
  lemma StackAddressInPageOne(s: bv8)
    ensures StackAddress(s) == ToAddress(StackPage(s))
  {
  }

  /** Popping undoes pushing on the stack pointer, 0x00 wrapping to 0xff and back. */
  lemma AboveBelow(s: bv8)
    ensures Above(Below(s)) == s
  {
  }

  /** Two adjacent slots are distinct addresses, also where the stack pointer wraps. */
  lemma AdjacentSlotsDiffer(s: bv8)
    ensures StackAddress(Below(s)) != StackAddress(s)
  {
  }

  lemma PushEffect(m: Machine, v: bv8)
    ensures Push(m, v).regs == m.regs.(s := Below(m.regs.s))
    ensures Push(m, v).bus.memory == m.bus.memory[Cell(StackAddress(m.regs.s)) := v]
    ensures Push(m, v).bus.trace == m.bus.trace + [Write(StackAddress(m.regs.s), v, Plain)]
  {
  }

  lemma PopEffect(m: Machine)
    ensures Pop(m).value == Peek(m.bus, StackAddress(Above(m.regs.s)))
    ensures Pop(m).m.regs == m.regs.(s := Above(m.regs.s))
    ensures Pop(m).m.bus.memory == m.bus.memory
    ensures Pop(m).m.bus.trace == m.bus.trace + [Read(StackAddress(Above(m.regs.s)), Plain)]
  {
  }

  /** A pop straight after a push returns the pushed byte and restores the registers. */
  lemma PushPop(m: Machine, v: bv8)
    ensures Pop(Push(m, v)).value == v
    ensures Pop(Push(m, v)).m.regs == m.regs
  {
    var pushed := Push(m, v);
    PushEffect(m, v);
    AboveBelow(m.regs.s);
    PopEffect(pushed);
    assert Above(pushed.regs.s) == m.regs.s;
    assert Peek(pushed.bus, StackAddress(m.regs.s)) == v;
  }

  /** Sixteen-bit push and pop round-trip: the address comes back and the stack pointer is restored. */
  lemma Push16Pop16(m: Machine, v: bv16)
    ensures Pop16(Push16(m, v)).address == v
    ensures Pop16(Push16(m, v)).m.regs == m.regs
  {
    var s := m.regs.s;
    var m1 := Push(m, HighByte(v));
    var m2 := Push(m1, LowByte(v));
    PushEffect(m, HighByte(v));
    PushEffect(m1, LowByte(v));
    var low := Pop(m2);
    PopEffect(m2);
    AboveBelow(Below(s));
    assert low.value == LowByte(v);
    var high := Pop(low.m);
    PopEffect(low.m);
    AboveBelow(s);
    AdjacentSlotsDiffer(s);
    assert high.value == HighByte(v);
    SplitJoin(v);
  }

  lemma PhantomStackReadEffect(m: Machine)
    ensures PhantomStackRead(m).regs == m.regs
    ensures PhantomStackRead(m).bus.memory == m.bus.memory
    ensures PhantomStackRead(m).bus.trace == m.bus.trace + [PhantomRead(StackAddress(m.regs.s))]
  {
  }

  /** The bytes of a sixteen-bit push: the high byte at the stack pointer, the low byte below it. */
  lemma Push16Effect(m: Machine, v: bv16)
    ensures Push16(m, v).regs == m.regs.(s := Below(Below(m.regs.s)))
    ensures Push16(m, v).bus.memory ==
      m.bus.memory[Cell(StackAddress(m.regs.s)) := HighByte(v)][Cell(StackAddress(Below(m.regs.s))) := LowByte(v)]
    ensures Push16(m, v).bus.trace == m.bus.trace +
      [Write(StackAddress(m.regs.s), HighByte(v), Plain), Write(StackAddress(Below(m.regs.s)), LowByte(v), Plain)]
  {
    var m1 := Push(m, HighByte(v));
    PushEffect(m, HighByte(v));
    PushEffect(m1, LowByte(v));
    assert m1.bus.trace + [Write(StackAddress(Below(m.regs.s)), LowByte(v), Plain)] == m.bus.trace +
      [Write(StackAddress(m.regs.s), HighByte(v), Plain), Write(StackAddress(Below(m.regs.s)), LowByte(v), Plain)];
  }

  /** A sixteen-bit pop reads the two slots above the stack pointer, low byte first. */
  lemma Pop16Effect(m: Machine)
    ensures Pop16(m).address ==
      Join(Peek(m.bus, StackAddress(Above(m.regs.s))), Peek(m.bus, StackAddress(Above(Above(m.regs.s)))))
    ensures Pop16(m).m.regs == m.regs.(s := Above(Above(m.regs.s)))
    ensures Pop16(m).m.bus.memory == m.bus.memory
    ensures Pop16(m).m.bus.trace == m.bus.trace +
      [Read(StackAddress(Above(m.regs.s)), Plain), Read(StackAddress(Above(Above(m.regs.s))), Plain)]
  {
    var low := Pop(m);
    PopEffect(m);
    PopEffect(low.m);
    assert low.m.bus.trace + [Read(StackAddress(Above(Above(m.regs.s))), Plain)] == m.bus.trace +
      [Read(StackAddress(Above(m.regs.s)), Plain), Read(StackAddress(Above(Above(m.regs.s))), Plain)];
  }
}
