/**
 * The IO space (ch22-core/src/address_map/io_space.rs): reads and writes to
 * the memory-mapped devices, with the timing of 1 MHz devices, the pending
 * phase-2 write and the interrupt lines.
 *
 * Devices are of any type `D`; what a device does is given by an
 * `IoDeviceOps` record of functions, standing for the device trait's
 * methods. The clock's timer devices are of type `T` and are synced by
 * `tsync`.
 */
module IoSpaces {
  import opened Optional
  import opened Words
  import opened TimerDevices
  import opened Clocks
  import opened IoDeviceLists

  datatype DeviceRead<D> = DeviceRead(device: D, value: bv8)
  datatype DeviceWritten<D> = DeviceWritten(device: D, phase2: bool)
  datatype DeviceInterrupt<D> = DeviceInterrupt(device: D, interrupt: bool)

  /** A device's behaviour: read, write (and whether it wants a phase-2 call), phase 2, and its interrupt line. */
  datatype IoDeviceOps<!D> = IoDeviceOps(
    read: (D, Word, nat) -> DeviceRead<D>,
    write: (D, Word, bv8, nat) -> DeviceWritten<D>,
    phase2: (D, Word, bv8, nat) -> D,
    getInterrupt: (D, nat) -> DeviceInterrupt<D>,
    setInterrupt: (D, bool) -> D)

  /** A write whose device asked to see it again at the end of the cycle. */
  datatype Pending = Pending(address: Word, value: bv8)

  datatype IoSpace<D> = IoSpace(devices: IoDeviceList<D>, phase2Data: Option<Pending>)

  predicate Valid<D>(s: IoSpace<D>) {
    IoDeviceLists.Valid(s.devices)
  }

  datatype ReadResult<D, T> = ReadResult(value: bv8, space: IoSpace<D>, clock: Clock<T>)
  datatype WriteResult<D, T> = WriteResult(space: IoSpace<D>, clock: Clock<T>)
  datatype InterruptResult<D> = InterruptResult(interrupt: bool, space: IoSpace<D>)

  function AddDevice<D>(s: IoSpace<D>, addresses: seq<bv16>, device: D, kind: Option<InterruptKind>, speed: Speed): (nat, IoSpace<D>) {
    var (id, l) := IoDeviceLists.AddDevice(s.devices, addresses, device, kind, speed);
    (id, s.(devices := l))
  }

  // ----------------------------------------------------------------- timing

  /** The cycle a device sees an access at: 1 MHz devices wait for an even cycle. */
  function AccessCycle<T>(speed: Speed, c: Clock<T>, tsync: (T, nat) -> Entry<T>): nat {
    match speed
    case OneMhz => OneMhzSync(c, tsync).cycles
    case TwoMhz => c.cycles
  }

  /** The clock after an access: a 1 MHz access also takes the cycle after it. */
  function AfterAccess<T>(speed: Speed, c: Clock<T>, tsync: (T, nat) -> Entry<T>): Clock<T> {
    match speed
    case OneMhz => Inc(OneMhzSync(c, tsync), tsync)
    case TwoMhz => c
  }

  // ------------------------------------------------------------- operations

  /** An address with no device reads 0xff; otherwise the device is read at its access cycle. */
  function Read<D, T>(s: IoSpace<D>, address: Word, c: Clock<T>, ops: IoDeviceOps<D>, tsync: (T, nat) -> Entry<T>): ReadResult<D, T>
    requires Valid(s)
  {
    match DeviceAt(s.devices, address)
    case None => ReadResult(0xff, s, c)
    case Some(id) =>
      var speed := ConfigOf(s.devices, id).speed;
      var r := ops.read(s.devices.devices[id], address, AccessCycle(speed, c, tsync));
      ReadResult(r.value, s.(devices := s.devices.(devices := s.devices.devices[id := r.device])), AfterAccess(speed, c, tsync))
  }

  /** A write to no device does nothing; otherwise the device is written at its access cycle and may leave a pending phase-2 write. */
  function Write<D, T>(s: IoSpace<D>, address: Word, value: bv8, c: Clock<T>, ops: IoDeviceOps<D>, tsync: (T, nat) -> Entry<T>): WriteResult<D, T>
    requires Valid(s)
  {
    match DeviceAt(s.devices, address)
    case None => WriteResult(s, c)
    case Some(id) =>
      var speed := ConfigOf(s.devices, id).speed;
      var w := ops.write(s.devices.devices[id], address, value, AccessCycle(speed, c, tsync));
      var devices := s.devices.(devices := s.devices.devices[id := w.device]);
      var pending := if w.phase2 then Some(Pending(address, value)) else s.phase2Data;
      WriteResult(IoSpace(devices, pending), AfterAccess(speed, c, tsync))
  }

  /** Delivers the pending write, if any, to the device at its address, and clears it. */
  function Phase2<D>(s: IoSpace<D>, cycles: nat, ops: IoDeviceOps<D>): IoSpace<D>
    requires Valid(s)
  {
    match s.phase2Data
    case None => s
    case Some(p) =>
      match DeviceAt(s.devices, p.address)
      case None => s.(phase2Data := None)
      case Some(id) =>
        var d := ops.phase2(s.devices.devices[id], p.address, p.value, cycles);
        IoSpace(s.devices.(devices := s.devices.devices[id := d]), None)
  }

  /**
   * Asks the devices `ids`, in order, whether their interrupt is raised,
   * stopping at the first that says yes; each device asked may change, and
   * the devices after the first that says yes are not asked at all.
   */
  function AnyInterrupt<D>(devices: seq<D>, ids: seq<nat>, cycles: nat, ops: IoDeviceOps<D>): (r: (bool, seq<D>))
    requires forall j :: 0 <= j < |ids| ==> ids[j] < |devices|
    requires forall j, k :: 0 <= j < k < |ids| ==> ids[j] < ids[k]
    ensures |r.1| == |devices|
    ensures r.0 <==> exists j :: 0 <= j < |ids| && ops.getInterrupt(devices[ids[j]], cycles).interrupt
    ensures forall i :: 0 <= i < |devices| && i !in ids ==> r.1[i] == devices[i]
    decreases |ids|
  {
    if |ids| == 0 then (false, devices)
    else
      var q := ops.getInterrupt(devices[ids[0]], cycles);
      var asked := devices[ids[0] := q.device];
      if q.interrupt then (true, asked)
      else
        assert forall j :: 1 <= j < |ids| ==> ids[j] == ids[1..][j - 1] && asked[ids[j]] == devices[ids[j]];
        AnyInterrupt(asked, ids[1..], cycles, ops)
  }

  /** No device among the first `j` of `ids` reports its interrupt. */
  predicate NoneRaised<D>(devices: seq<D>, ids: seq<nat>, j: nat, cycles: nat, ops: IoDeviceOps<D>)
    requires j <= |ids| && forall k :: 0 <= k < |ids| ==> ids[k] < |devices|
  {
    forall k :: 0 <= k < j ==> !ops.getInterrupt(devices[ids[k]], cycles).interrupt
  }

  /**
   * The `j`-th device of `ids` is asked, and becomes what its answer says,
   * exactly when none before it raised its interrupt; otherwise it is left
   * as it was.
   */
  lemma {:induction false} AnyInterruptAsks<D>(devices: seq<D>, ids: seq<nat>, cycles: nat, ops: IoDeviceOps<D>, j: nat)
    requires forall k :: 0 <= k < |ids| ==> ids[k] < |devices|
    requires forall k, l :: 0 <= k < l < |ids| ==> ids[k] < ids[l]
    requires j < |ids|
    ensures AnyInterrupt(devices, ids, cycles, ops).1[ids[j]] ==
      if NoneRaised(devices, ids, j, cycles, ops) then ops.getInterrupt(devices[ids[j]], cycles).device else devices[ids[j]]
    decreases |ids|
  {
    var q := ops.getInterrupt(devices[ids[0]], cycles);
    var asked := devices[ids[0] := q.device];
    var r := AnyInterrupt(devices, ids, cycles, ops).1;
    AnyInterruptStep(devices, ids, cycles, ops);
    if j == 0 {
      assert NoneRaised(devices, ids, 0, cycles, ops);
      if !q.interrupt {
        FirstNotLater(ids);
        assert r == AnyInterrupt(asked, ids[1..], cycles, ops).1;
      }
      assert r[ids[0]] == q.device;
    } else {
      assert ids[0] < ids[j];
      assert asked[ids[j]] == devices[ids[j]];
      if q.interrupt {
        assert !NoneRaised(devices, ids, j, cycles, ops);
        assert r == asked;
      } else {
        var rest := ids[1..];
        assert rest[j - 1] == ids[j];
        AnyInterruptAsks(asked, rest, cycles, ops, j - 1);
        NoneRaisedShift(devices, ids, cycles, ops, j);
        assert r[ids[j]] == AnyInterrupt(asked, rest, cycles, ops).1[rest[j - 1]];
      }
    }
  }

  /** One step of `AnyInterrupt`: the first device is asked, and the rest are asked only if it did not raise. */
  lemma AnyInterruptStep<D>(devices: seq<D>, ids: seq<nat>, cycles: nat, ops: IoDeviceOps<D>)
    requires forall k :: 0 <= k < |ids| ==> ids[k] < |devices|
    requires forall k, l :: 0 <= k < l < |ids| ==> ids[k] < ids[l]
    requires |ids| > 0
    ensures var q := ops.getInterrupt(devices[ids[0]], cycles);
      var asked := devices[ids[0] := q.device];
      (forall k :: 0 <= k < |ids[1..]| ==> ids[1..][k] < |asked|) &&
      (forall k, l :: 0 <= k < l < |ids[1..]| ==> ids[1..][k] < ids[1..][l]) &&
      (q.interrupt ==> AnyInterrupt(devices, ids, cycles, ops) == (true, asked)) &&
      (!q.interrupt ==> AnyInterrupt(devices, ids, cycles, ops) == AnyInterrupt(asked, ids[1..], cycles, ops))
  {
  }

  /** With ascending ids, the first is not among the rest. */
  lemma FirstNotLater(ids: seq<nat>)
    requires forall k, l :: 0 <= k < l < |ids| ==> ids[k] < ids[l]
    requires |ids| > 0
    ensures ids[0] !in ids[1..]
  {
    forall k | 0 <= k < |ids[1..]| ensures ids[1..][k] != ids[0] {
      assert ids[1..][k] == ids[k + 1];
    }
  }

  /** When the first device did not raise, "none of the first j raised" is "none of the rest's first j - 1 raised". */
  lemma NoneRaisedShift<D>(devices: seq<D>, ids: seq<nat>, cycles: nat, ops: IoDeviceOps<D>, j: nat)
    requires forall k :: 0 <= k < |ids| ==> ids[k] < |devices|
    requires forall k, l :: 0 <= k < l < |ids| ==> ids[k] < ids[l]
    requires 0 < j < |ids|
    requires !ops.getInterrupt(devices[ids[0]], cycles).interrupt
    ensures var asked := devices[ids[0] := ops.getInterrupt(devices[ids[0]], cycles).device];
      NoneRaised(asked, ids[1..], j - 1, cycles, ops) <==> NoneRaised(devices, ids, j, cycles, ops)
  {
    var asked := devices[ids[0] := ops.getInterrupt(devices[ids[0]], cycles).device];
    var rest := ids[1..];
    forall k | 0 <= k < |rest| ensures rest[k] == ids[k + 1] && asked[rest[k]] == devices[ids[k + 1]] {
      assert ids[0] < ids[k + 1];
    }
  }

  /** Whether any device on the line `kind` has its interrupt raised. */
  function GetInterrupt<D>(s: IoSpace<D>, kind: InterruptKind, cycles: nat, ops: IoDeviceOps<D>): InterruptResult<D>
    requires Valid(s)
  {
    var ids := ByInterruptKind(s.devices.configs, kind);
    var (raised, devices) := AnyInterrupt(s.devices.devices, ids, cycles, ops);
    InterruptResult(raised, s.(devices := s.devices.(devices := devices)))
  }

  /** Sets a device's interrupt; the source indexes the device list, which panics for an unknown id. */
  function SetInterrupt<D>(s: IoSpace<D>, id: nat, interrupt: bool, ops: IoDeviceOps<D>): IoSpace<D>
    requires Valid(s) && id < |s.devices.devices|
  {
    s.(devices := s.devices.(devices := s.devices.devices[id := ops.setInterrupt(s.devices.devices[id], interrupt)]))
  }

  // ------------------------------------------------------------ properties

  /** A 2 MHz device is accessed at the current cycle and the clock is left alone. */
  lemma TwoMhzTiming<T>(c: Clock<T>, tsync: (T, nat) -> Entry<T>)
    ensures AccessCycle(TwoMhz, c, tsync) == c.cycles
    ensures AfterAccess(TwoMhz, c, tsync) == c
  {
  }

  /**
   * A 1 MHz device is accessed at the first even cycle not before the
   * current one, and the clock ends one cycle after the access.
   */
  lemma OneMhzTiming<T>(c: Clock<T>, tsync: (T, nat) -> Entry<T>)
    ensures AccessCycle(OneMhz, c, tsync) % 2 == 0
    ensures AccessCycle(OneMhz, c, tsync) == if c.cycles % 2 == 0 then c.cycles else c.cycles + 1
    ensures AfterAccess(OneMhz, c, tsync).cycles == AccessCycle(OneMhz, c, tsync) + 1
  {
    OneMhzSyncEffect(c, tsync);
  }

  /** From cycle 1000 a 1 MHz access happens at 1000 and ends at 1001; from 1001 it happens at 1002 and ends at 1003. */
  lemma OneMhzTimingExamples<T>(c: Clock<T>, tsync: (T, nat) -> Entry<T>)
    ensures c.cycles == 1000 ==> AccessCycle(OneMhz, c, tsync) == 1000 && AfterAccess(OneMhz, c, tsync).cycles == 1001
    ensures c.cycles == 1001 ==> AccessCycle(OneMhz, c, tsync) == 1002 && AfterAccess(OneMhz, c, tsync).cycles == 1003
  {
  }

  /** An address with no device reads 0xff and changes nothing, clock included; a write there is a no-op. */
  lemma UnmappedAccess<D, T>(s: IoSpace<D>, address: Word, value: bv8, c: Clock<T>, ops: IoDeviceOps<D>, tsync: (T, nat) -> Entry<T>)
    requires Valid(s) && DeviceAt(s.devices, address).None?
    ensures Read(s, address, c, ops, tsync) == ReadResult(0xff, s, c)
    ensures Write(s, address, value, c, ops, tsync) == WriteResult(s, c)
  {
  }

  /**
   * A read of a mapped address returns what the device returns when read
   * at its access cycle; only that device changes, and the clock moves as
   * its speed dictates.
   */
  lemma ReadMapped<D, T>(s: IoSpace<D>, address: Word, c: Clock<T>, ops: IoDeviceOps<D>, tsync: (T, nat) -> Entry<T>)
    requires Valid(s) && DeviceAt(s.devices, address).Some?
    ensures var id := DeviceAt(s.devices, address).value;
      var speed := ConfigOf(s.devices, id).speed;
      var d := ops.read(s.devices.devices[id], address, AccessCycle(speed, c, tsync));
      var r := Read(s, address, c, ops, tsync);
      Valid(r.space) &&
      r.value == d.value && r.space.devices.devices[id] == d.device &&
      (forall i :: 0 <= i < |s.devices.devices| && i != id ==> r.space.devices.devices[i] == s.devices.devices[i]) &&
      r.space.devices.addressMap == s.devices.addressMap && r.space.devices.configs == s.devices.configs &&
      r.space.phase2Data == s.phase2Data &&
      r.clock == AfterAccess(speed, c, tsync)
  {
  }

  /** A write leaves a pending phase-2 write exactly when the device asks for one; otherwise the pending write is kept. */
  lemma WritePending<D, T>(s: IoSpace<D>, address: Word, value: bv8, c: Clock<T>, ops: IoDeviceOps<D>, tsync: (T, nat) -> Entry<T>)
    requires Valid(s) && DeviceAt(s.devices, address).Some?
    ensures var id := DeviceAt(s.devices, address).value;
      var speed := ConfigOf(s.devices, id).speed;
      var w := ops.write(s.devices.devices[id], address, value, AccessCycle(speed, c, tsync));
      var r := Write(s, address, value, c, ops, tsync);
      Valid(r.space) &&
      r.space.devices.devices[id] == w.device &&
      (w.phase2 ==> r.space.phase2Data == Some(Pending(address, value))) &&
      (!w.phase2 ==> r.space.phase2Data == s.phase2Data) &&
      r.clock == AfterAccess(speed, c, tsync)
  {
  }

  /** Phase 2 delivers the pending write to its device once and clears it, so a second phase 2 does nothing. */
  lemma Phase2Once<D>(s: IoSpace<D>, cycles: nat, cycles': nat, ops: IoDeviceOps<D>)
    requires Valid(s)
    ensures Valid(Phase2(s, cycles, ops))
    ensures Phase2(s, cycles, ops).phase2Data.None?
    ensures Phase2(Phase2(s, cycles, ops), cycles', ops) == Phase2(s, cycles, ops)
    ensures s.phase2Data.None? ==> Phase2(s, cycles, ops) == s
    ensures s.phase2Data.Some? && DeviceAt(s.devices, s.phase2Data.value.address).Some? ==>
      var p := s.phase2Data.value;
      var id := DeviceAt(s.devices, p.address).value;
      Phase2(s, cycles, ops).devices.devices[id] == ops.phase2(s.devices.devices[id], p.address, p.value, cycles)
  {
  }

  /** The interrupt line `kind` is raised exactly when some device configured for it reports its interrupt. */
  lemma GetInterruptRaised<D>(s: IoSpace<D>, kind: InterruptKind, cycles: nat, ops: IoDeviceOps<D>)
    requires Valid(s)
    ensures GetInterrupt(s, kind, cycles, ops).interrupt <==>
      exists i :: 0 <= i < |s.devices.devices| && s.devices.configs[i].interruptKind == Some(kind) &&
        ops.getInterrupt(s.devices.devices[i], cycles).interrupt
  {
    var devices := s.devices.devices;
    var ids := ByInterruptKind(s.devices.configs, kind);
    if GetInterrupt(s, kind, cycles, ops).interrupt {
      var j :| 0 <= j < |ids| && ops.getInterrupt(devices[ids[j]], cycles).interrupt;
      assert s.devices.configs[ids[j]].interruptKind == Some(kind);
    }
    if exists i :: 0 <= i < |devices| && s.devices.configs[i].interruptKind == Some(kind) &&
        ops.getInterrupt(devices[i], cycles).interrupt
    {
      var i :| 0 <= i < |devices| && s.devices.configs[i].interruptKind == Some(kind) &&
        ops.getInterrupt(devices[i], cycles).interrupt;
      assert i in ids;
      var j :| 0 <= j < |ids| && ids[j] == i;
      assert ops.getInterrupt(devices[ids[j]], cycles).interrupt;
    }
  }

  /** Asking for an interrupt changes only devices on that line, and keeps the space valid. */
  lemma GetInterruptOtherLines<D>(s: IoSpace<D>, kind: InterruptKind, cycles: nat, ops: IoDeviceOps<D>)
    requires Valid(s)
    ensures Valid(GetInterrupt(s, kind, cycles, ops).space)
    ensures forall i :: 0 <= i < |s.devices.devices| && s.devices.configs[i].interruptKind != Some(kind) ==>
      GetInterrupt(s, kind, cycles, ops).space.devices.devices[i] == s.devices.devices[i]
  {
  }
}
