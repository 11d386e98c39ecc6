/**
 * The decoding and checking the JavaScript-facing system object does
 * before it reaches the core (ch22-core/src/system/system_ffi.rs): the flag
 * byte that configures a JS IO device, the ROM bank check on loading, the
 * registration of JS devices, and the packing of twelve video registers
 * into one `u128` for the renderer.
 */
module SystemFfi {
  import opened Optional
  import opened Words
  import opened TimerDevices
  import opened IoDeviceLists
  import IoSpaces
  import Clocks
  import SystemCore
  import RomSpace
  import JsTimerDevices
  import VideoRegisters

  // ------------------------------------------------------------ device flags

  const OneMhzFlag: bv8 := 0x01
  const NmiFlag: bv8 := 0x02
  const IrqFlag: bv8 := 0x04
  const Phase2WriteFlag: bv8 := 0x10

  /** How a JS IO device is registered: its interrupt line, its speed and whether it defers writes to phase 2. */
  datatype JsDeviceConfig = JsDeviceConfig(kind: Option<InterruptKind>, speed: Speed, phase2Write: bool)

  /** The two interrupt-line bits of a flag byte. */
  function LineBits(flags: bv8): bv8 {
    flags & (IrqFlag | NmiFlag)
  }

  function OneMhzBit(flags: bv8): bv8 {
    flags & OneMhzFlag
  }

  function Phase2WriteBit(flags: bv8): bv8 {
    flags & Phase2WriteFlag
  }

  /** IRQ or NMI when exactly that bit is set; no line when both or neither are. */
  function KindOf(flags: bv8): Option<InterruptKind> {
    if LineBits(flags) == IrqFlag then Some(Irq)
    else if LineBits(flags) == NmiFlag then Some(Nmi)
    else None
  }

  function DecodeFlags(flags: bv8): JsDeviceConfig {
    JsDeviceConfig(KindOf(flags), if OneMhzBit(flags) == OneMhzFlag then OneMhz else TwoMhz, Phase2WriteBit(flags) != 0)
  }

  /** The flag byte the JavaScript side passes for a configuration. */
  function EncodeFlags(c: JsDeviceConfig): bv8 {
    var line: bv8 := match c.kind
      case None => 0
      case Some(Irq) => IrqFlag
      case Some(Nmi) => NmiFlag;
    var speed: bv8 := if c.speed == OneMhz then OneMhzFlag else 0;
    var phase2: bv8 := if c.phase2Write then Phase2WriteFlag else 0;
    line | speed | phase2
  }

  /** Adds a JS IO device built from the phase-2 flag, with the line and speed the flags give. */
  function AddJsIoDevice<D>(c: SystemCore.Core<D>, addresses: seq<bv16>, flags: bv8, make: bool -> D): (nat, SystemCore.Core<D>) {
    var config := DecodeFlags(flags);
    var (id, io) := IoSpaces.AddDevice(c.io, addresses, make(config.phase2Write), config.kind, config.speed);
    (id, c.(io := io))
  }

  /** Adds a JS timer device, with no trigger, to the timer list. */
  function AddJsTimerDevice(l: TimerDeviceList<JsTimerDevices.JsTimerDevice>): (nat, TimerDeviceList<JsTimerDevices.JsTimerDevice>) {
    TimerDevices.AddDevice(l, JsTimerDevices.New())
  }

  // ------------------------------------------------------------- ROM loading

  /** A load's outcome: the core with the new image, or one of the source's two panics. */
  datatype LoadRomResult<D> = RomLoaded(core: SystemCore.Core<D>) | InvalidBank(bank: nat) | RomWrongSize(length: nat)

  function LoadRom<D>(c: SystemCore.Core<D>, bank: nat, data: seq<bv8>): LoadRomResult<D>
    requires SystemCore.Valid(c)
  {
    if bank >= SystemCore.RomsLen then InvalidBank(bank)
    else
      match RomSpace.Load(data)
      case Loaded(rom) => RomLoaded(c.(roms := c.roms[bank := rom]))
      case WrongSize(length) => RomWrongSize(length)
  }

  // ------------------------------------------------------- video registers

  /** The CRTC registers the renderer needs, in the order they are packed. */
  const PartialCrtc: seq<nat> := [0, 1, 3, 4, 5, 6, 7, 8, 9, 12, 13]

  /** The sixteen bytes of the packed value, lowest first: the CRTC registers, the ULA control byte, then zeros. */
  function PartialBytes(v: VideoRegisters.VideoRegisters): (bs: seq<bv8>)
    requires VideoRegisters.Valid(v)
  {
    seq(|PartialCrtc|, i requires 0 <= i < |PartialCrtc| => v.crtc[PartialCrtc[i]]) + [v.ulaControl, 0, 0, 0, 0]
  }

  /** The value of a byte sequence, the first byte lowest. */
  function PackBytes(bs: seq<bv8>): nat {
    if |bs| == 0 then 0 else bs[0] as int + 0x100 * PackBytes(bs[1..])
  }

  /** 256 to the power `i`: the weight of byte `i`. */
  function Weight(i: nat): nat {
    if i == 0 then 1 else 0x100 * Weight(i - 1)
  }

  /** Byte `i` of a value: shift right by eight bits `i` times and keep eight bits. */
  function ByteOf(p: nat, i: nat): nat {
    if i == 0 then p % 0x100 else ByteOf(p / 0x100, i - 1)
  }

  function PartialVideoRegisters(v: VideoRegisters.VideoRegisters): nat
    requires VideoRegisters.Valid(v)
  {
    PackBytes(PartialBytes(v))
  }

  // ------------------------------------------------------------ properties

  /** The line is IRQ exactly when bit 2 is set and bit 1 clear, NMI exactly when bit 1 is set and bit 2 clear. */
  lemma KindBits(flags: bv8)
    ensures KindOf(flags) == Some(Irq) <==> flags & 0x06 == 0x04
    ensures KindOf(flags) == Some(Nmi) <==> flags & 0x06 == 0x02
    ensures KindOf(flags).None? <==> (flags & 0x06 == 0 || flags & 0x06 == 0x06)
  {
  }

  /** The speed is 1 MHz exactly when bit 0 is set, and phase-2 writes are on exactly when bit 4 is set. */
  lemma SpeedAndPhase2Bits(flags: bv8)
    ensures DecodeFlags(flags).speed == OneMhz <==> flags & 0x01 != 0
    ensures DecodeFlags(flags).phase2Write <==> flags & 0x10 != 0
  {
  }

  /** Decoding the flags of a configuration gives it back. */
  lemma DecodeEncodeFlags(c: JsDeviceConfig)
    ensures DecodeFlags(EncodeFlags(c)) == c
  {
  }

  /**
   * Decoding reads bits 0, 1, 2 and 4 only: re-encoding gives those bits
   * back, except that both line bits together mean no line.
   */
  lemma EncodeDecodeFlags(flags: bv8)
    ensures flags & 0x06 != 0x06 ==> EncodeFlags(DecodeFlags(flags)) == flags & 0x17
    ensures flags & 0x06 == 0x06 ==> EncodeFlags(DecodeFlags(flags)) == flags & 0x11
  {
  }

  /** A JS IO device gets the next id, the decoded line and speed, the decoded phase-2 setting and the listed addresses. */
  lemma AddJsIoDeviceEffect<D>(c: SystemCore.Core<D>, addresses: seq<bv16>, flags: bv8, make: bool -> D)
    requires SystemCore.Valid(c)
    ensures var (id, c') := AddJsIoDevice(c, addresses, flags, make);
      id == |c.io.devices.devices| &&
      SystemCore.Valid(c') &&
      c'.io.devices.devices[id] == make(DecodeFlags(flags).phase2Write) &&
      ConfigOf(c'.io.devices, id) == Config(DecodeFlags(flags).kind, DecodeFlags(flags).speed) &&
      (forall i :: 0 <= i < |addresses| ==> DeviceAt(c'.io.devices, FromAddress(addresses[i])) == Some(id)) &&
      c'.ram == c.ram && c'.roms == c.roms && c'.romSelectLatch == c.romSelectLatch
  {
    var config := DecodeFlags(flags);
    IoDeviceLists.AddDeviceEffect(c.io.devices, addresses, make(config.phase2Write), config.kind, config.speed);
    IoDeviceLists.AddDeviceAddresses(c.io.devices, addresses, make(config.phase2Write), config.kind, config.speed);
  }

  /** A JS timer device gets the next id and starts with no trigger, so the earliest trigger is unchanged. */
  lemma AddJsTimerDeviceEffect(l: TimerDeviceList<JsTimerDevices.JsTimerDevice>)
    requires TimerDevices.Valid(l)
    ensures var (id, l') := AddJsTimerDevice(l);
      id == |l.entries| && l'.entries[id] == Entry(JsTimerDevices.JsTimerDevice(None), None) &&
      TimerDevices.Valid(l') && l'.nextSync == l.nextSync
  {
    TimerDevices.AddDeviceEffect(l, JsTimerDevices.New());
  }

  /** A bank past the last socket is rejected; a wrongly sized image is rejected; otherwise only that socket changes. */
  lemma LoadRomEffect<D>(c: SystemCore.Core<D>, bank: nat, data: seq<bv8>)
    requires SystemCore.Valid(c)
    ensures LoadRom(c, bank, data).InvalidBank? <==> bank >= 17
    ensures LoadRom(c, bank, data).RomWrongSize? <==> bank < 17 && |data| != RomSpace.RomSize
    ensures LoadRom(c, bank, data).RomLoaded? ==>
      SystemCore.Valid(LoadRom(c, bank, data).core) &&
      LoadRom(c, bank, data).core == c.(roms := c.roms[bank := data])
  {
  }

  /** Once an image is loaded into the selected bank, the paged window reads the image. */
  lemma LoadedRomReads<D, T>(c: SystemCore.Core<D>, data: seq<bv8>, address: Word, clock: Clocks.Clock<T>, ops: IoSpaces.IoDeviceOps<D>, tsync: (T, nat) -> Entry<T>)
    requires SystemCore.Valid(c) && c.romSelectLatch < SystemCore.RomsLen && |data| == RomSpace.RomSize
    requires SystemCore.RegionOf(address.high) == SystemCore.PagedRomRegion
    ensures LoadRom(c, c.romSelectLatch, data).RomLoaded?
    ensures SystemCore.Read(LoadRom(c, c.romSelectLatch, data).core, address, clock, ops, tsync).value == data[Index(address) - 0x8000]
  {
    var c' := LoadRom(c, c.romSelectLatch, data).core;
    SystemCore.ReadPagedRom(c', address, clock, ops, tsync);
  }

  /** `n` bytes pack below 256^n. */
  lemma {:induction false} PackBytesBound(bs: seq<bv8>)
    ensures PackBytes(bs) < Weight(|bs|)
  {
    if |bs| > 0 {
      PackBytesBound(bs[1..]);
    }
  }

  /** Reading byte `i` of a packed sequence gives its `i`th element. */
  lemma {:induction false} ByteOfPack(bs: seq<bv8>, i: nat)
    requires i < |bs|
    ensures ByteOf(PackBytes(bs), i) == bs[i] as int
  {
    if i > 0 {
      ByteOfPack(bs[1..], i - 1);
      assert PackBytes(bs) / 0x100 == PackBytes(bs[1..]);
    }
  }

  lemma SixteenBytesFitU128()
    ensures Weight(16) == 0x1_0000_0000_0000_0000_0000_0000_0000_0000
  {
    assert Weight(4) == 0x1_0000_0000;
    assert Weight(8) == 0x1_0000_0000_0000_0000;
    assert Weight(12) == 0x1_0000_0000_0000_0000_0000_0000;
  }

  /** The packed value fits a `u128`. */
  lemma PartialVideoRegistersFit(v: VideoRegisters.VideoRegisters)
    requires VideoRegisters.Valid(v)
    ensures PartialVideoRegisters(v) < 0x1_0000_0000_0000_0000_0000_0000_0000_0000
  {
    PackBytesBound(PartialBytes(v));
    SixteenBytesFitU128();
  }

  /**
   * Bytes 0-10 of the packed value are R0, R1, R3, R4, R5, R6, R7, R8, R9,
   * R12 and R13, byte 11 is the ULA control byte and bytes 12-15 are zero.
   */
  lemma PartialVideoRegistersLayout(v: VideoRegisters.VideoRegisters)
    requires VideoRegisters.Valid(v)
    ensures forall i :: 0 <= i < 11 ==> ByteOf(PartialVideoRegisters(v), i) == v.crtc[PartialCrtc[i]] as int
    ensures ByteOf(PartialVideoRegisters(v), 11) == v.ulaControl as int
    ensures forall i :: 12 <= i < 16 ==> ByteOf(PartialVideoRegisters(v), i) == 0
  {
    var bs := PartialBytes(v);
    forall i | 0 <= i < 16
      ensures ByteOf(PartialVideoRegisters(v), i) == bs[i] as int
    {
      ByteOfPack(bs, i);
    }
  }
}
