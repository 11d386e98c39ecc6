/**
 * The machine's memory map (ch22-core/src/system/core.rs): RAM, the sixteen
 * paged ROM sockets plus the OS ROM, the ROM select latch and the IO space,
 * with reads and writes dispatched on an address's high byte.
 *
 * The ROM select latch is shared in the source between this map and the
 * ROM select device. Here it is a field of its own, and `romSelectDevice`
 * records the id the ROM select device was registered under: an IO access
 * that reaches that id is the ROM select register's read or write of the
 * latch (the device kept in that slot only holds the place).
 */
module SystemCore {
  import opened Optional
  import opened Words
  import opened TimerDevices
  import opened Clocks
  import opened IoDeviceLists
  import opened IoSpaces
  import RamSpace
  import RomSpace
  import RomSelects

  /** The socket holding the OS ROM, and the number of sockets. */
  const OsRom: nat := 16
  const RomsLen: nat := 17

  /** The ROM shown in the paged window after setup. */
  const InitialRomSelect: nat := 15

  /** The ROM select register's addresses. */
  const RomSelectAddresses: seq<bv16> := [0xfe30, 0xfe31, 0xfe32, 0xfe33]

  datatype Core<D> = Core(ram: RamSpace.Ram, roms: seq<RomSpace.Rom>, io: IoSpace<D>, romSelectLatch: nat, romSelectDevice: Option<nat>)

  predicate Valid<D>(c: Core<D>) {
    |c.ram| == RamSpace.RamSize && |c.roms| == RomsLen &&
    (forall i :: 0 <= i < |c.roms| ==> |c.roms[i]| == RomSpace.RomSize) &&
    IoSpaces.Valid(c.io)
  }

  /** What the high byte of an address selects. */
  datatype Region = RamRegion | PagedRomRegion | OsRomRegion | IoRegion

  function RegionOf(high: bv8): Region {
    if high < 0x80 then RamRegion
    else if high < 0xc0 then PagedRomRegion
    else if high < 0xfc then OsRomRegion
    else if high < 0xff then IoRegion
    else OsRomRegion
  }

  /** The address relative to a window starting at page `base`. */
  function Rebased(address: Word, base: bv8): Word
    requires base <= address.high
  {
    Word(address.low, address.high - base)
  }

  /** A read's value with the IO space and clock after it, or the source's index panic for a latch past the last socket. */
  datatype MapRead<D, T> = MapRead(value: bv8, io: IoSpace<D>, clock: Clock<T>) | InvalidRomBank(bank: nat)

  /** Selects ROM 15 and maps the ROM select register at 2 MHz with no interrupt. */
  function Setup<D>(c: Core<D>, romSelect: D): Core<D> {
    var (id, io) := IoSpaces.AddDevice(c.io, RomSelectAddresses, romSelect, None, TwoMhz);
    c.(romSelectLatch := InitialRomSelect, io := io, romSelectDevice := Some(id))
  }

  /** Whether an IO address reaches the ROM select register. */
  predicate IsRomSelect<D>(c: Core<D>, address: Word) {
    c.romSelectDevice.Some? && DeviceAt(c.io.devices, address) == c.romSelectDevice
  }

  function Read<D, T>(c: Core<D>, address: Word, clock: Clock<T>, ops: IoDeviceOps<D>, tsync: (T, nat) -> Entry<T>): MapRead<D, T>
    requires Valid(c)
  {
    match RegionOf(address.high)
    case RamRegion => MapRead(RamSpace.Read(c.ram, address), c.io, clock)
    case PagedRomRegion =>
      if c.romSelectLatch < RomsLen then
        MapRead(RomSpace.Read(c.roms[c.romSelectLatch], Rebased(address, 0x80)), c.io, clock)
      else
        InvalidRomBank(c.romSelectLatch)
    case OsRomRegion => MapRead(RomSpace.Read(c.roms[OsRom], Rebased(address, 0xc0)), c.io, clock)
    case IoRegion =>
      if IsRomSelect(c, address) then
        var speed := ConfigOf(c.io.devices, c.romSelectDevice.value).speed;
        MapRead(RomSelects.Read(c.romSelectLatch, address, AccessCycle(speed, clock, tsync)), c.io, AfterAccess(speed, clock, tsync))
      else
        var r := IoSpaces.Read(c.io, address, clock, ops, tsync);
        MapRead(r.value, r.space, r.clock)
  }

  datatype MapWritten<D, T> = MapWritten(core: Core<D>, clock: Clock<T>)

  /** Writes reach RAM and the IO space; the ROM windows ignore them. */
  function Write<D, T>(c: Core<D>, address: Word, value: bv8, clock: Clock<T>, ops: IoDeviceOps<D>, tsync: (T, nat) -> Entry<T>): MapWritten<D, T>
    requires Valid(c)
  {
    match RegionOf(address.high)
    case RamRegion => MapWritten(c.(ram := RamSpace.Write(c.ram, address, value)), clock)
    case IoRegion =>
      if IsRomSelect(c, address) then
        var speed := ConfigOf(c.io.devices, c.romSelectDevice.value).speed;
        var w := RomSelects.Write(c.romSelectLatch, address, value, AccessCycle(speed, clock, tsync));
        var io := if w.phase2 then c.io.(phase2Data := Some(Pending(address, value))) else c.io;
        MapWritten(c.(romSelectLatch := w.latch, io := io), AfterAccess(speed, clock, tsync))
      else
        var w := IoSpaces.Write(c.io, address, value, clock, ops, tsync);
        MapWritten(c.(io := w.space), w.clock)
    case _ => MapWritten(c, clock)
  }

  // ------------------------------------------------------------ properties

  /** Pages 0x00-0x7f are RAM, 0x80-0xbf the paged ROM, 0xc0-0xfb and 0xff the OS ROM, 0xfc-0xfe the IO space. */
  lemma RegionRanges(high: bv8)
    ensures RegionOf(high) == RamRegion <==> high as int < 0x80
    ensures RegionOf(high) == PagedRomRegion <==> 0x80 <= high as int < 0xc0
    ensures RegionOf(high) == OsRomRegion <==> (0xc0 <= high as int < 0xfc || high as int == 0xff)
    ensures RegionOf(high) == IoRegion <==> 0xfc <= high as int < 0xff
  {
  }

  /** Every RAM address indexes inside the RAM, and every rebased ROM address inside a ROM. */
  lemma OffsetsInRange(address: Word)
    ensures RegionOf(address.high) == RamRegion ==> Index(address) < RamSpace.RamSize
    ensures RegionOf(address.high) == PagedRomRegion ==> Index(Rebased(address, 0x80)) < RomSpace.RomSize
    ensures RegionOf(address.high) == OsRomRegion ==> Index(Rebased(address, 0xc0)) < RomSpace.RomSize
  {
  }

  /** Rebasing to a window's first page takes that page's address off. */
  lemma RebasedIndex(address: Word)
    ensures RegionOf(address.high) == PagedRomRegion ==> Index(Rebased(address, 0x80)) == Index(address) - 0x8000
    ensures RegionOf(address.high) == OsRomRegion ==> Index(Rebased(address, 0xc0)) == Index(address) - 0xc000
  {
  }

  /** After setup the paged window shows ROM 15, and the four ROM select addresses find the new 2 MHz device with no interrupt. */
  lemma SetupEffect<D>(c: Core<D>, romSelect: D)
    requires Valid(c)
    ensures Valid(Setup(c, romSelect))
    ensures Setup(c, romSelect).romSelectLatch == 15
    ensures var id := |c.io.devices.devices|;
      Setup(c, romSelect).romSelectDevice == Some(id) &&
      Setup(c, romSelect).io.devices.devices[id] == romSelect &&
      ConfigOf(Setup(c, romSelect).io.devices, id) == Config(None, TwoMhz) &&
      forall a :: 0xfe30 <= a <= 0xfe33 ==> DeviceAt(Setup(c, romSelect).io.devices, FromAddress(a)) == Some(id)
    ensures Setup(c, romSelect).ram == c.ram && Setup(c, romSelect).roms == c.roms
  {
    var id := |c.io.devices.devices|;
    IoDeviceLists.AddDeviceEffect(c.io.devices, RomSelectAddresses, romSelect, None, TwoMhz);
    IoDeviceLists.AddDeviceAddresses(c.io.devices, RomSelectAddresses, romSelect, None, TwoMhz);
    forall a: bv16 | 0xfe30 <= a <= 0xfe33
      ensures DeviceAt(Setup(c, romSelect).io.devices, FromAddress(a)) == Some(id)
    {
      assert a == RomSelectAddresses[(a - 0xfe30) as int];
    }
  }

  /** The ROM select register's addresses lie in the IO pages. */
  lemma RomSelectAddressesInIo(a: bv16)
    requires 0xfe30 <= a <= 0xfe33
    ensures RegionOf(FromAddress(a).high) == IoRegion
  {
  }

  /** A RAM read gives the RAM byte and touches neither the IO space nor the clock. */
  lemma ReadRam<D, T>(c: Core<D>, address: Word, clock: Clock<T>, ops: IoDeviceOps<D>, tsync: (T, nat) -> Entry<T>)
    requires Valid(c) && RegionOf(address.high) == RamRegion
    ensures Read(c, address, clock, ops, tsync) == MapRead(c.ram[Index(address)], c.io, clock)
  {
  }

  /**
   * A read of the paged window gives the byte at the same offset in the
   * selected ROM; a latch of 16 shows the OS ROM there, and a latch past
   * the last socket is the source's panic.
   */
  lemma ReadPagedRom<D, T>(c: Core<D>, address: Word, clock: Clock<T>, ops: IoDeviceOps<D>, tsync: (T, nat) -> Entry<T>)
    requires Valid(c) && RegionOf(address.high) == PagedRomRegion
    ensures c.romSelectLatch < RomsLen ==>
      Read(c, address, clock, ops, tsync) == MapRead(c.roms[c.romSelectLatch][Index(address) - 0x8000], c.io, clock)
    ensures c.romSelectLatch == OsRom ==>
      Read(c, address, clock, ops, tsync).value == c.roms[OsRom][Index(address) - 0x8000]
    ensures c.romSelectLatch >= RomsLen ==> Read(c, address, clock, ops, tsync) == InvalidRomBank(c.romSelectLatch)
  {
    RebasedIndex(address);
  }

  /** A read of either OS ROM window gives the OS ROM byte at the address less 0xc000. */
  lemma ReadOsRom<D, T>(c: Core<D>, address: Word, clock: Clock<T>, ops: IoDeviceOps<D>, tsync: (T, nat) -> Entry<T>)
    requires Valid(c) && RegionOf(address.high) == OsRomRegion
    ensures Read(c, address, clock, ops, tsync) == MapRead(c.roms[OsRom][Index(address) - 0xc000], c.io, clock)
  {
    RebasedIndex(address);
  }

  /** An IO address with no device reads 0xff, and a write there changes nothing; neither touches the clock. */
  lemma UnmappedIo<D, T>(c: Core<D>, address: Word, value: bv8, clock: Clock<T>, ops: IoDeviceOps<D>, tsync: (T, nat) -> Entry<T>)
    requires Valid(c) && RegionOf(address.high) == IoRegion && DeviceAt(c.io.devices, address).None?
    ensures Read(c, address, clock, ops, tsync) == MapRead(0xff, c.io, clock)
    ensures Write(c, address, value, clock, ops, tsync) == MapWritten(c, clock)
  {
    UnmappedAccess(c.io, address, value, clock, ops, tsync);
  }

  /**
   * Once set up, a write of `v` to any of 0xfe30-0xfe33 selects ROM `v`
   * without taking a cycle, and a read of any of those addresses gives `v`
   * back.
   */
  lemma SelectRom<D, T>(c: Core<D>, romSelect: D, a: bv16, a': bv16, v: bv8, clock: Clock<T>, clock': Clock<T>, ops: IoDeviceOps<D>, tsync: (T, nat) -> Entry<T>)
    requires Valid(c) && 0xfe30 <= a <= 0xfe33 && 0xfe30 <= a' <= 0xfe33
    ensures var s := Setup(c, romSelect);
      var w := Write(s, FromAddress(a), v, clock, ops, tsync);
      Valid(w.core) && w.clock == clock &&
      w.core == s.(romSelectLatch := v as nat) &&
      Read(w.core, FromAddress(a'), clock', ops, tsync) == MapRead(v, w.core.io, clock')
  {
    var s := Setup(c, romSelect);
    SetupEffect(c, romSelect);
    RomSelectAddressesInIo(a);
    RomSelectAddressesInIo(a');
    var w := Write(s, FromAddress(a), v, clock, ops, tsync);
    RomSelects.WriteThenRead(s.romSelectLatch, FromAddress(a), v, clock.cycles, FromAddress(a'), clock'.cycles);
  }

  /**
   * Once set up, writing `v` to the ROM select register makes the paged
   * window show ROM `v`; a `v` past the last socket makes the next paged
   * read the source's index panic.
   */
  lemma SelectThenReadPaged<D, T>(c: Core<D>, romSelect: D, a: bv16, v: bv8, address: Word, clock: Clock<T>, clock': Clock<T>, ops: IoDeviceOps<D>, tsync: (T, nat) -> Entry<T>)
    requires Valid(c) && 0xfe30 <= a <= 0xfe33 && RegionOf(address.high) == PagedRomRegion
    ensures var w := Write(Setup(c, romSelect), FromAddress(a), v, clock, ops, tsync).core;
      Valid(w) &&
      (v as nat < RomsLen ==> Read(w, address, clock', ops, tsync) == MapRead(c.roms[v][Index(address) - 0x8000], w.io, clock')) &&
      (v as nat >= RomsLen ==> Read(w, address, clock', ops, tsync) == InvalidRomBank(v as nat))
  {
    SelectRom(c, romSelect, a, a, v, clock, clock, ops, tsync);
    SetupEffect(c, romSelect);
    var w := Write(Setup(c, romSelect), FromAddress(a), v, clock, ops, tsync).core;
    ReadPagedRom(w, address, clock', ops, tsync);
  }

  /**
   * Writes change RAM only below 0x8000 and the IO space only in
   * 0xfc00-0xfeff; the ROM windows ignore them. A write that reaches the
   * ROM select register sets the latch to the byte and is the only write
   * that changes it.
   */
  lemma WriteDispatch<D, T>(c: Core<D>, address: Word, value: bv8, clock: Clock<T>, ops: IoDeviceOps<D>, tsync: (T, nat) -> Entry<T>)
    requires Valid(c)
    ensures Valid(Write(c, address, value, clock, ops, tsync).core)
    ensures RegionOf(address.high) == RamRegion ==>
      Write(c, address, value, clock, ops, tsync) == MapWritten(c.(ram := c.ram[Index(address) := value]), clock)
    ensures RegionOf(address.high) == IoRegion && !IsRomSelect(c, address) ==>
      var w := IoSpaces.Write(c.io, address, value, clock, ops, tsync);
      Write(c, address, value, clock, ops, tsync) == MapWritten(c.(io := w.space), w.clock)
    ensures RegionOf(address.high) == IoRegion && IsRomSelect(c, address) ==>
      var speed := ConfigOf(c.io.devices, c.romSelectDevice.value).speed;
      Write(c, address, value, clock, ops, tsync) == MapWritten(c.(romSelectLatch := value as nat), AfterAccess(speed, clock, tsync))
    ensures RegionOf(address.high) == PagedRomRegion || RegionOf(address.high) == OsRomRegion ==>
      Write(c, address, value, clock, ops, tsync) == MapWritten(c, clock)
    ensures Write(c, address, value, clock, ops, tsync).core.roms == c.roms
    ensures Write(c, address, value, clock, ops, tsync).core.romSelectDevice == c.romSelectDevice
    ensures !(RegionOf(address.high) == IoRegion && IsRomSelect(c, address)) ==>
      Write(c, address, value, clock, ops, tsync).core.romSelectLatch == c.romSelectLatch
  {
    if RegionOf(address.high) == IoRegion && !IsRomSelect(c, address) {
      if DeviceAt(c.io.devices, address).Some? {
        WritePending(c.io, address, value, clock, ops, tsync);
      }
    }
  }
}
