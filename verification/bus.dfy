/**
 * The processor's view of the system bus (ch22-core/src/bus.rs): every cycle
 * is a read, a write or a phantom read of one address. The system behind the
 * bus is modelled as memory, a map from addresses to bytes in which an
 * address never written reads as 0, together with the trace of every cycle
 * issued so far, in order.
 */
module Bus {
  import opened Registers

  /** The extra work a cycle asks of the system (bus.rs `CycleOp`; `Plain` is its `None`). */
  datatype CycleOp = Sync | CheckInterrupt | Plain

  datatype BusEvent =
    | PhantomRead(address: bv16)
    | Read(address: bv16, op: CycleOp)
    | Write(address: bv16, value: bv8, op: CycleOp)
    | Complete

  /**
   * A memory cell. Memory is keyed by this one-field datatype rather than by
   * the bare `bv16`: the verifier relates an updated map's lookups to its
   * update only for keys of this kind.
   */
  datatype Cell = Cell(address: bv16)

  datatype BusState = BusState(memory: map<Cell, bv8>, trace: seq<BusEvent>)

  /** The byte at `a`; addresses never written hold 0. */
  function Peek(bus: BusState, a: bv16): bv8 {
    if Cell(a) in bus.memory then bus.memory[Cell(a)] else 0
  }

  /** The executor's state: the registers and the bus it drives. */
  datatype Machine = Machine(regs: Registers, bus: BusState)

  /** A byte obtained from the bus, and the machine after the cycles that obtained it. */
  datatype Loaded = Loaded(value: bv8, m: Machine)

  /** An address worked out from the instruction stream, and the machine after the cycles spent on it. */
  datatype Addressed = Addressed(address: bv16, m: Machine)

  function Record(m: Machine, e: BusEvent): Machine {
    m.(bus := m.bus.(trace := m.bus.trace + [e]))
  }

  /** A cycle that puts `a` on the bus and discards what comes back. */
  function PhantomReadAt(m: Machine, a: bv16): Machine {
    Record(m, PhantomRead(a))
  }

  function ReadAt(m: Machine, a: bv16, op: CycleOp): Loaded {
    Loaded(Peek(m.bus, a), Record(m, Read(a, op)))
  }

  function WriteAt(m: Machine, a: bv16, v: bv8, op: CycleOp): Machine {
    Machine(m.regs, BusState(m.bus.memory[Cell(a) := v], m.bus.trace + [Write(a, v, op)]))
  }

  /** The end of an instruction, reported to the system. */
  function CompleteAt(m: Machine): Machine {
    Record(m, Complete)
  }

  /** A read returns the last byte written to that address. */
  lemma ReadAfterWrite(m: Machine, a: bv16, v: bv8, op: CycleOp, op2: CycleOp)
    ensures ReadAt(WriteAt(m, a, v, op), a, op2).value == v
  {
  }

  /** A write to one address leaves every other address as it was. */
  lemma ReadPastWrite(m: Machine, a: bv16, b: bv16, v: bv8, op: CycleOp, op2: CycleOp)
    requires a != b
    ensures ReadAt(WriteAt(m, a, v, op), b, op2).value == ReadAt(m, b, op2).value
  {
  }

  /** Reads, phantom reads and completions change neither memory nor registers, and add one event. */
  lemma RecordKeepsState(m: Machine, e: BusEvent)
    ensures Record(m, e).regs == m.regs && Record(m, e).bus.memory == m.bus.memory
    ensures Record(m, e).bus.trace == m.bus.trace + [e]
  {
  }
}
