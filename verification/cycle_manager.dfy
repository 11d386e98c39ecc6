/**
 * The CPU's view of the bus, one cycle at a time
 * (ch22-core/src/cycle_manager.rs). Every access first ends the previous
 * cycle: the pending phase-2 write is delivered, then the clock ticks.
 * `Repeat` runs a step until the clock reaches a target.
 */
module CycleManagers {
  import opened Optional
  import opened Words
  import opened TimerDevices
  import opened Clocks
  import opened IoDeviceLists
  import opened IoSpaces
  import opened SystemCore

  datatype CycleManager<D, T> = CycleManager(clock: Clock<T>, core: Core<D>)

  /** A read's value and the state after it, or the memory map's panic. */
  datatype CpuRead<D, T> = CpuRead(value: bv8, m: CycleManager<D, T>) | ReadPanic(bank: nat)

  function EndPreviousCycle<D, T>(m: CycleManager<D, T>, ops: IoDeviceOps<D>, tsync: (T, nat) -> Entry<T>): CycleManager<D, T>
    requires SystemCore.Valid(m.core)
  {
    var io := Phase2(m.core.io, m.clock.cycles, ops);
    CycleManager(Inc(m.clock, tsync), m.core.(io := io))
  }

  /** A cycle in which the CPU reads but ignores the bus: nothing is read. */
  function PhantomRead<D, T>(m: CycleManager<D, T>, address: Word, ops: IoDeviceOps<D>, tsync: (T, nat) -> Entry<T>): CycleManager<D, T>
    requires SystemCore.Valid(m.core)
  {
    EndPreviousCycle(m, ops, tsync)
  }

  function Read<D, T>(m: CycleManager<D, T>, address: Word, ops: IoDeviceOps<D>, tsync: (T, nat) -> Entry<T>): CpuRead<D, T>
    requires SystemCore.Valid(m.core)
  {
    var e := EndPreviousCycle(m, ops, tsync);
    PhaseTwoKeepsValid(m.core, m.clock.cycles, ops);
    match SystemCore.Read(e.core, address, e.clock, ops, tsync)
    case MapRead(value, io, clock) => CpuRead(value, CycleManager(clock, e.core.(io := io)))
    case InvalidRomBank(bank) => ReadPanic(bank)
  }

  function Write<D, T>(m: CycleManager<D, T>, address: Word, value: bv8, ops: IoDeviceOps<D>, tsync: (T, nat) -> Entry<T>): CycleManager<D, T>
    requires SystemCore.Valid(m.core)
  {
    var e := EndPreviousCycle(m, ops, tsync);
    PhaseTwoKeepsValid(m.core, m.clock.cycles, ops);
    var w := SystemCore.Write(e.core, address, value, e.clock, ops, tsync);
    CycleManager(w.clock, w.core)
  }

  /** Asks the interrupt line without taking a cycle. */
  function GetInterrupt<D, T>(m: CycleManager<D, T>, kind: InterruptKind, ops: IoDeviceOps<D>): (bool, CycleManager<D, T>)
    requires SystemCore.Valid(m.core)
  {
    var r := IoSpaces.GetInterrupt(m.core.io, kind, m.clock.cycles, ops);
    (r.interrupt, m.(core := m.core.(io := r.space)))
  }

  /**
   * Calls `step` while the clock is short of `runUntil` and gives back the
   * final cycle count. `calls` lists the states `step` was called on. The
   * source loops for as long as the step leaves the clock short; here every
   * step must advance it.
   */
  method Repeat<D, T>(m: CycleManager<D, T>, runUntil: nat, step: CycleManager<D, T> -> CycleManager<D, T>)
    returns (r: CycleManager<D, T>, cycles: nat, calls: seq<CycleManager<D, T>>)
    requires forall x :: step(x).clock.cycles > x.clock.cycles
    ensures cycles == r.clock.cycles && cycles >= runUntil
    ensures forall i :: 0 <= i < |calls| ==> calls[i].clock.cycles < runUntil
    ensures |calls| == 0 <==> m.clock.cycles >= runUntil
    ensures |calls| == 0 ==> r == m
    ensures |calls| > 0 ==> calls[0] == m && r == step(calls[|calls| - 1])
    ensures forall i :: 0 <= i < |calls| - 1 ==> calls[i + 1] == step(calls[i])
  {
    r := m;
    calls := [];
    while r.clock.cycles < runUntil
      invariant forall i :: 0 <= i < |calls| ==> calls[i].clock.cycles < runUntil
      invariant |calls| == 0 ==> r == m
      invariant |calls| > 0 ==> calls[0] == m && r == step(calls[|calls| - 1])
      invariant forall i :: 0 <= i < |calls| - 1 ==> calls[i + 1] == step(calls[i])
      invariant |calls| > 0 ==> m.clock.cycles < runUntil
      decreases runUntil - r.clock.cycles
    {
      calls := calls + [r];
      r := step(r);
    }
    cycles := r.clock.cycles;
  }

  // ------------------------------------------------------------ properties

  lemma PhaseTwoKeepsValid<D>(c: Core<D>, cycles: nat, ops: IoDeviceOps<D>)
    requires SystemCore.Valid(c)
    ensures SystemCore.Valid(c.(io := Phase2(c.io, cycles, ops)))
  {
    Phase2Once(c.io, cycles, cycles, ops);
  }

  /**
   * Ending a cycle delivers the pending write at the old count, clears it,
   * ticks the clock once and leaves RAM, ROMs and the latch alone; a
   * phantom read does no more than that.
   */
  lemma PhantomReadEffect<D, T>(m: CycleManager<D, T>, address: Word, ops: IoDeviceOps<D>, tsync: (T, nat) -> Entry<T>)
    requires SystemCore.Valid(m.core)
    ensures var p := PhantomRead(m, address, ops, tsync);
      SystemCore.Valid(p.core) &&
      p.clock.cycles == m.clock.cycles + 1 &&
      p.core.io.phase2Data.None? &&
      p.core.io.devices.addressMap == m.core.io.devices.addressMap &&
      p.core.ram == m.core.ram && p.core.roms == m.core.roms && p.core.romSelectLatch == m.core.romSelectLatch
  {
    PhaseTwoKeepsValid(m.core, m.clock.cycles, ops);
    Phase2Once(m.core.io, m.clock.cycles, m.clock.cycles, ops);
  }

  /** A RAM read takes exactly one cycle, gives the RAM byte and leaves RAM as it was. */
  lemma ReadRamCycle<D, T>(m: CycleManager<D, T>, address: Word, ops: IoDeviceOps<D>, tsync: (T, nat) -> Entry<T>)
    requires SystemCore.Valid(m.core) && RegionOf(address.high) == RamRegion
    ensures Read(m, address, ops, tsync).CpuRead?
    ensures Read(m, address, ops, tsync).value == m.core.ram[Index(address)]
    ensures Read(m, address, ops, tsync).m.clock.cycles == m.clock.cycles + 1
    ensures Read(m, address, ops, tsync).m.core.ram == m.core.ram
    ensures Read(m, address, ops, tsync).m.core.io.phase2Data.None?
  {
    var e := EndPreviousCycle(m, ops, tsync);
    PhaseTwoKeepsValid(m.core, m.clock.cycles, ops);
    Phase2Once(m.core.io, m.clock.cycles, m.clock.cycles, ops);
    ReadRam(e.core, address, e.clock, ops, tsync);
  }

  /** A RAM write takes exactly one cycle and stores the byte, with the pending write cleared first. */
  lemma WriteRamCycle<D, T>(m: CycleManager<D, T>, address: Word, value: bv8, ops: IoDeviceOps<D>, tsync: (T, nat) -> Entry<T>)
    requires SystemCore.Valid(m.core) && RegionOf(address.high) == RamRegion
    ensures Write(m, address, value, ops, tsync).clock.cycles == m.clock.cycles + 1
    ensures Write(m, address, value, ops, tsync).core.ram == m.core.ram[Index(address) := value]
    ensures Write(m, address, value, ops, tsync).core.io.phase2Data.None?
  {
    var e := EndPreviousCycle(m, ops, tsync);
    PhaseTwoKeepsValid(m.core, m.clock.cycles, ops);
    Phase2Once(m.core.io, m.clock.cycles, m.clock.cycles, ops);
    WriteDispatch(e.core, address, value, e.clock, ops, tsync);
  }

  /** Asking for an interrupt takes no cycle and touches neither RAM nor the address map. */
  lemma GetInterruptKeepsClock<D, T>(m: CycleManager<D, T>, kind: InterruptKind, ops: IoDeviceOps<D>)
    requires SystemCore.Valid(m.core)
    ensures GetInterrupt(m, kind, ops).1.clock == m.clock
    ensures GetInterrupt(m, kind, ops).1.core.ram == m.core.ram
    ensures GetInterrupt(m, kind, ops).1.core.io.devices.addressMap == m.core.io.devices.addressMap
    ensures SystemCore.Valid(GetInterrupt(m, kind, ops).1.core)
  {
    GetInterruptOtherLines(m.core.io, kind, m.clock.cycles, ops);
  }
}
