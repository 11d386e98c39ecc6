/**
 * The 6502 addressing modes (ch22-core/src/cpu/executor/addressing.rs and
 * immediate_access.rs): each reads its operand bytes at the program counter,
 * advancing it, and issues the same phantom reads as the hardware while it
 * forms the effective address.
 */
module Addressing {
  import opened CpuUtil
  import opened Registers
  import opened Words
  import opened Bus

  /** The next program counter, 0xffff wrapping to 0. */
  function NextPc(pc: bv16): bv16 {
    pc + 1
  }

  /** The byte at the program counter; the counter moves past it. */
  function ReadImmediate(m: Machine): Loaded {
    var r := ReadAt(m, m.regs.pc, Plain);
    Loaded(r.value, r.m.(regs := r.m.regs.(pc := NextPc(m.regs.pc))))
  }

  /** Two bytes at the program counter, low byte first. */
  function ReadImmediate16(m: Machine): Addressed {
    var low := ReadImmediate(m);
    var high := ReadImmediate(low.m);
    Addressed(Join(low.value, high.value), high.m)
  }

  /** The address one up within the same page: 0x12ff is followed by 0x1200. */
  function NextAddressSamePage(a: bv16): bv16 {
    Join(WrappingAdd(LowByte(a), 1), HighByte(a))
  }

  /** A little-endian pointer at `a`; its high byte comes from the same page (the indirect-JMP quirk). */
  function Read16(m: Machine, a: bv16, op: CycleOp): Addressed {
    var low := ReadAt(m, a, op);
    var high := ReadAt(low.m, NextAddressSamePage(a), op);
    Addressed(Join(low.value, high.value), high.m)
  }

  datatype CarryResult = Carried(intermediate: bv16) | NoCarry

  datatype OffsetAddress = OffsetAddress(address: bv16, carry: CarryResult)

  /** `a + b` modulo 0x10000. */
  function WrappingAdd16(a: bv16, b: bv16): bv16 {
    a + b
  }

  function PageOf(a: bv16): bv16 {
    a & 0xff00
  }

  /** The address on the bus before the page is fixed: the old page, the new low byte. */
  function Intermediate(base: bv16, address: bv16): bv16 {
    (base & 0xff00) | (address & 0x00ff)
  }

  /** Offsets an address; a change of page is reported with the intermediate address. */
  function AddressOffset(base: bv16, offset: bv16): OffsetAddress {
    var address := WrappingAdd16(base, offset);
    if PageOf(address) != PageOf(base) then OffsetAddress(address, Carried(Intermediate(base, address)))
    else OffsetAddress(address, NoCarry)
  }

  /** An unsigned byte widened to sixteen bits. */
  function ZeroExtend(o: bv8): bv16 {
    o as bv16
  }

  /** A two's-complement byte widened to sixteen bits. */
  function SignExtend(o: bv8): bv16 {
    if o & 0x80 != 0 then 0xff00 | o as bv16 else o as bv16
  }

  function AddressOffsetUnsigned(base: bv16, offset: bv8): OffsetAddress {
    AddressOffset(base, ZeroExtend(offset))
  }

  function AddressOffsetSigned(base: bv16, offset: bv8): OffsetAddress {
    AddressOffset(base, SignExtend(offset))
  }

  /** The address the bus sees after an offset: the intermediate one on a page change. */
  function FirstAddress(o: OffsetAddress): bv16 {
    if o.carry.Carried? then o.carry.intermediate else o.address
  }

  /** The addressing modes, each indexed mode carrying the index register's value. */
  datatype AddressMode =
    | Immediate
    | ZeroPage
    | ZeroPageIndexed(index: bv8)
    | Absolute
    | AbsoluteIndexed(index: bv8)
    | Indirect
    | IndexedIndirect(index: bv8)
    | IndirectIndexed(index: bv8)
    | Relative

  function ZeroPageAddress(m: Machine): Addressed {
    var z := ReadImmediate(m);
    Addressed(ZeroExtend(z.value), z.m)
  }

  /** The index is added within page zero, after a phantom read of the unindexed address. */
  function ZeroPageIndexedAddress(m: Machine, index: bv8): Addressed {
    var base := ReadImmediate(m);
    Addressed(ZeroExtend(WrappingAdd(base.value, index)), PhantomReadAt(base.m, ZeroExtend(base.value)))
  }

  /** An absolute address plus the index; true when a page was crossed. */
  datatype CarriedAddress = CarriedAddress(address: bv16, carried: bool, m: Machine)

  /** Absolute indexed, for writes: always one phantom read, at the intermediate address or the final one. */
  function AbsoluteIndexedAddressWithCarry(m: Machine, index: bv8): CarriedAddress {
    var base := ReadImmediate16(m);
    var o := AddressOffsetUnsigned(base.address, index);
    CarriedAddress(o.address, o.carry.Carried?, PhantomReadAt(base.m, FirstAddress(o)))
  }

  function IndirectAddress(m: Machine): Addressed {
    var base := ReadImmediate16(m);
    Read16(base.m, base.address, Plain)
  }

  function IndexedIndirectAddress(m: Machine, index: bv8): Addressed {
    var z := ZeroPageIndexedAddress(m, index);
    Read16(z.m, z.address, Plain)
  }

  /** Indirect indexed, for writes: always one phantom read, as for absolute indexed. */
  function IndirectIndexedAddress(m: Machine, index: bv8): Addressed {
    var z := ZeroPageAddress(m);
    var base := Read16(z.m, z.address, Plain);
    var o := AddressOffsetUnsigned(base.address, index);
    Addressed(o.address, PhantomReadAt(base.m, FirstAddress(o)))
  }

  /** A branch target: the counter past the operand plus the signed offset. */
  function RelativeAddress(m: Machine): Addressed {
    var rel := ReadImmediate(m);
    var pc := rel.m.regs.pc;
    var o := AddressOffsetSigned(pc, rel.value);
    var m1 := PhantomReadAt(rel.m, pc);
    Addressed(o.address, if o.carry.Carried? then PhantomReadAt(m1, o.carry.intermediate) else m1)
  }

  /** The effective address of a mode; an immediate operand has none, and asking for one panics. */
  function Address(m: Machine, mode: AddressMode): Addressed
    requires mode != Immediate
  {
    match mode
    case ZeroPage => ZeroPageAddress(m)
    case ZeroPageIndexed(index) => ZeroPageIndexedAddress(m, index)
    case Absolute => ReadImmediate16(m)
    case AbsoluteIndexed(index) =>
      var c := AbsoluteIndexedAddressWithCarry(m, index);
      Addressed(c.address, c.m)
    case Indirect => IndirectAddress(m)
    case IndexedIndirect(index) => IndexedIndirectAddress(m, index)
    case IndirectIndexed(index) => IndirectIndexedAddress(m, index)
    case Relative => RelativeAddress(m)
  }

  /** Indexed reads phantom-read only when a page is crossed, then read the final address. */
  function IndexedData(base: Addressed, index: bv8): Loaded {
    var o := AddressOffsetUnsigned(base.address, index);
    var m1 := if o.carry.Carried? then PhantomReadAt(base.m, o.carry.intermediate) else base.m;
    ReadAt(m1, o.address, CheckInterrupt)
  }

  /** The operand of a mode: the immediate byte, or the byte at the effective address. */
  function Data(m: Machine, mode: AddressMode): Loaded {
    match mode
    case Immediate => ReadImmediate(m)
    case AbsoluteIndexed(index) => IndexedData(ReadImmediate16(m), index)
    case IndirectIndexed(index) =>
      var z := ZeroPageAddress(m);
      IndexedData(Read16(z.m, z.address, Plain), index)
    case _ =>
      var a := Address(m, mode);
      ReadAt(a.m, a.address, CheckInterrupt)
  }

  // ------------------------------------------------------------ properties

  /** The number of phantom reads among some bus events. */
  function PhantomReads(events: seq<BusEvent>): nat {
    if events == [] then 0
    else (if events[0].PhantomRead? then 1 else 0) + PhantomReads(events[1..])
  }

  /** Counting phantom reads distributes over concatenation. */
  lemma {:induction false} PhantomReadsAppend(a: seq<BusEvent>, b: seq<BusEvent>)
    ensures PhantomReads(a + b) == PhantomReads(a) + PhantomReads(b)
  {
    if a == [] {
      assert a + b == b;
    } else {
      assert (a + b)[1..] == a[1..] + b;
      PhantomReadsAppend(a[1..], b);
    }
  }

  /** The low byte of the offset address is the wrapped sum of the low bytes. */
  lemma OffsetLowByte(base: bv16, offset: bv8)
    ensures LowByte(WrappingAdd16(base, ZeroExtend(offset))) == WrappingAdd(LowByte(base), offset)
  {
  }

  /** An unsigned offset changes the page exactly when the low byte carries. */
  lemma OffsetPageChange(base: bv16, offset: bv8)
    ensures PageOf(WrappingAdd16(base, ZeroExtend(offset))) != PageOf(base) <==> AddCarries(LowByte(base), offset)
  {
  }

  /** The intermediate address has the base's page and the result's low byte. */
  lemma IntermediateBytes(base: bv16, address: bv16)
    ensures Intermediate(base, address) == Join(LowByte(address), HighByte(base))
  {
  }

  /** The address part of an offset is the wrapped sum. */
  lemma AddressOffsetSum(base: bv16, offset: bv16)
    ensures AddressOffset(base, offset).address == WrappingAdd16(base, offset)
  {
  }

  lemma ZeroExtendSum(base: bv16, offset: bv8)
    ensures WrappingAdd16(base, ZeroExtend(offset)) == base + offset as bv16
  {
  }

  lemma NegativeExtendSum(base: bv16, offset: bv8)
    requires offset >= 0x80
    ensures WrappingAdd16(base, SignExtend(offset)) == base + offset as bv16 + 0xff00
  {
    SignExtendNegative(offset);
  }

  /** Offsetting an address by an unsigned byte is `Word::paged_add`: the same sum. */
  lemma OffsetUnsignedIsPagedAdd(w: Word, offset: bv8)
    ensures AddressOffsetUnsigned(ToAddress(w), offset).address == ToAddress(PagedAdd(w, offset).word)
  {
    PagedAddValue(w, offset);
    AddressOffsetSum(ToAddress(w), ZeroExtend(offset));
    ZeroExtendSum(ToAddress(w), offset);
  }

  /** ... the same page crossings: carried exactly when `paged_add` crosses. */
  lemma OffsetUnsignedCarriesAsPagedAdd(base: bv16, offset: bv8)
    ensures AddressOffsetUnsigned(base, offset).carry.Carried? <==>
      PagedAdd(FromAddress(base), offset).offset.CrossedPage?
  {
    OffsetPageChange(base, offset);
  }

  /** ... and the same intermediate address. */
  lemma OffsetUnsignedIntermediateAsPagedAdd(base: bv16, offset: bv8)
    requires AddressOffsetUnsigned(base, offset).carry.Carried?
    ensures AddressOffsetUnsigned(base, offset).carry.intermediate ==
      ToAddress(PagedAdd(FromAddress(base), offset).offset.intermediate)
  {
    OffsetPageChange(base, offset);
    OffsetLowByte(base, offset);
    IntermediateBytes(base, WrappingAdd16(base, ZeroExtend(offset)));
  }

  /** Zero-page indexing wraps within page zero: the address is the wrapped byte sum. */
  lemma ZeroPageIndexedWraps(m: Machine, index: bv8)
    ensures ZeroPageIndexedAddress(m, index).address < 0x100
    ensures ZeroPageIndexedAddress(m, index).address == (Peek(m.bus, m.regs.pc) as bv16 + index as bv16) % 0x100
  {
  }

  /** The indirect address's second byte is read from the same page: one up, except that 0xff wraps to 0x00. */
  lemma NextAddressSamePageValue(a: bv16)
    ensures HighByte(NextAddressSamePage(a)) == HighByte(a)
    ensures LowByte(a) != 0xff ==> NextAddressSamePage(a) == a + 1
    ensures LowByte(a) == 0xff ==> NextAddressSamePage(a) == a - 0xff
  {
  }

  /** A byte read as a two's-complement number. */
  function SignedValue(o: bv8): int {
    if o < 0x80 then o as int else o as int - 0x100
  }

  /** Sign extension keeps the value of a two's-complement byte, modulo 0x10000. */
  lemma SignExtendValue(o: bv8)
    ensures SignExtend(o) as int == SignedValue(o) % 0x10000
  {
    if o < 0x80 {
      SignExtendNonNegative(o);
      ZeroExtendValue(o);
    } else {
      SignExtendNegative(o);
      NegativeExtendValue(o);
    }
  }

  lemma ZeroExtendValue(o: bv8)
    ensures ZeroExtend(o) as int == o as int
  {
  }

  lemma NegativeExtendValue(o: bv8)
    requires o >= 0x80
    ensures (ZeroExtend(o) + 0xff00) as int == o as int + 0xff00
  {
    ZeroExtendValue(o);
  }

  /** A non-negative offset extends with a zero high byte. */
  lemma SignExtendNonNegative(o: bv8)
    requires o < 0x80
    ensures SignExtend(o) == ZeroExtend(o)
  {
  }

  /** A negative offset extends to `o - 256`, modulo 0x10000. */
  lemma SignExtendNegative(o: bv8)
    requires o >= 0x80
    ensures SignExtend(o) == ZeroExtend(o) + 0xff00
  {
  }

  /** A non-negative signed offset is `Word::paged_add`. */
  lemma OffsetSignedForwardIsPagedAdd(w: Word, offset: bv8)
    requires offset < 0x80
    ensures AddressOffsetSigned(ToAddress(w), offset).address == ToAddress(PagedAdd(w, offset).word)
  {
    SignExtendNonNegative(offset);
    OffsetUnsignedIsPagedAdd(w, offset);
  }

  /** A negative signed offset is `Word::paged_subtract`. */
  lemma OffsetSignedBackwardIsPagedSubtract(w: Word, offset: bv8)
    requires offset >= 0x80
    ensures AddressOffsetSigned(ToAddress(w), offset).address == ToAddress(PagedSubtract(w, offset).word)
  {
    PagedSubtractValue(w, offset);
    AddressOffsetSum(ToAddress(w), SignExtend(offset));
    NegativeExtendSum(ToAddress(w), offset);
  }

  // The bus effect of each building block: the byte obtained, the events added, the registers after.

  lemma ReadImmediateEffect(m: Machine)
    ensures ReadImmediate(m).value == Peek(m.bus, m.regs.pc)
    ensures ReadImmediate(m).m.bus.memory == m.bus.memory
    ensures ReadImmediate(m).m.bus.trace == m.bus.trace + [Read(m.regs.pc, Plain)]
    ensures ReadImmediate(m).m.regs == m.regs.(pc := NextPc(m.regs.pc))
  {
  }

  lemma ReadImmediate16Effect(m: Machine)
    ensures ReadImmediate16(m).address == Join(Peek(m.bus, m.regs.pc), Peek(m.bus, NextPc(m.regs.pc)))
    ensures ReadImmediate16(m).m.bus.memory == m.bus.memory
    ensures ReadImmediate16(m).m.bus.trace == m.bus.trace + [Read(m.regs.pc, Plain), Read(NextPc(m.regs.pc), Plain)]
    ensures ReadImmediate16(m).m.regs == m.regs.(pc := NextPc(NextPc(m.regs.pc)))
  {
    var low := ReadImmediate(m);
    ReadImmediateEffect(m);
    ReadImmediateEffect(low.m);
    assert low.m.bus.trace + [Read(NextPc(m.regs.pc), Plain)] ==
      m.bus.trace + [Read(m.regs.pc, Plain), Read(NextPc(m.regs.pc), Plain)];
  }

  lemma IndexedDataEffect(base: Addressed, index: bv8)
    ensures var o := AddressOffsetUnsigned(base.address, index);
      && IndexedData(base, index).value == Peek(base.m.bus, o.address)
      && IndexedData(base, index).m.bus.memory == base.m.bus.memory
      && IndexedData(base, index).m.regs == base.m.regs
      && IndexedData(base, index).m.bus.trace == base.m.bus.trace +
        (if o.carry.Carried? then [PhantomRead(o.carry.intermediate)] else []) + [Read(o.address, CheckInterrupt)]
  {
    var o := AddressOffsetUnsigned(base.address, index);
    if o.carry.Carried? {
      assert base.m.bus.trace + [PhantomRead(o.carry.intermediate)] + [Read(o.address, CheckInterrupt)] ==
        base.m.bus.trace + [PhantomRead(o.carry.intermediate)] + [Read(o.address, CheckInterrupt)];
    } else {
      assert base.m.bus.trace + [] == base.m.bus.trace;
    }
  }

  /** A branch target is the counter past the operand plus the sign-extended offset. */
  lemma RelativeTarget(m: Machine)
    ensures RelativeAddress(m).address == NextPc(m.regs.pc) + SignExtend(Peek(m.bus, m.regs.pc))
  {
    ReadImmediateEffect(m);
    AddressOffsetSum(NextPc(m.regs.pc), SignExtend(Peek(m.bus, m.regs.pc)));
  }

  /** An absolute indexed read takes four cycles, five when the page is crossed; the extra one is the phantom read. */
  lemma AbsoluteIndexedDataCycles(m: Machine, index: bv8)
    ensures var r := Data(m, AbsoluteIndexed(index));
      var crossed := AddressOffsetUnsigned(ReadImmediate16(m).address, index).carry.Carried?;
      && |m.bus.trace| <= |r.m.bus.trace|
      && |r.m.bus.trace| == |m.bus.trace| + (if crossed then 4 else 3)
      && PhantomReads(r.m.bus.trace[|m.bus.trace|..]) == (if crossed then 1 else 0)
  {
    var base := ReadImmediate16(m);
    var o := AddressOffsetUnsigned(base.address, index);
    var extra: seq<BusEvent> := if o.carry.Carried? then [PhantomRead(o.carry.intermediate)] else [];
    var operands := [Read(m.regs.pc, Plain), Read(NextPc(m.regs.pc), Plain)];
    ReadImmediate16Effect(m);
    IndexedDataEffect(base, index);
    var r := Data(m, AbsoluteIndexed(index));
    assert r.m.bus.trace == m.bus.trace + operands + extra + [Read(o.address, CheckInterrupt)];
    assert r.m.bus.trace[|m.bus.trace|..] == operands + (extra + [Read(o.address, CheckInterrupt)]);
    PhantomReadsAppend(operands, extra + [Read(o.address, CheckInterrupt)]);
    PhantomReadsAppend(extra, [Read(o.address, CheckInterrupt)]);
  }

  /** The operand of an absolute indexed read is the byte at the base address plus the index. */
  lemma AbsoluteIndexedDataValue(m: Machine, index: bv8)
    ensures Data(m, AbsoluteIndexed(index)).value == Peek(m.bus, WrappingAdd16(ReadImmediate16(m).address, ZeroExtend(index)))
  {
    var base := ReadImmediate16(m);
    ReadImmediate16Effect(m);
    IndexedDataEffect(base, index);
    AddressOffsetSum(base.address, ZeroExtend(index));
  }
}
