/**
 * The IO device list (ch22-core/src/address_map/io_space/io_device_list.rs):
 * devices in the order they were added, each with its configuration
 * (interrupt line and bus speed), and a map from the addresses each device
 * answers to its id. Ids are indexes into the list.
 */
module IoDeviceLists {
  import opened Optional
  import opened Words

  /** The speed at which a device is accessed. */
  datatype Speed = OneMhz | TwoMhz

  /** The interrupt line a device can raise. */
  datatype InterruptKind = Irq | Nmi

  datatype Config = Config(interruptKind: Option<InterruptKind>, speed: Speed)

  datatype IoDeviceList<D> = IoDeviceList(devices: seq<D>, configs: seq<Config>, addressMap: map<Word, nat>)

  /** One configuration per device, and every mapped id names a device. */
  predicate Valid<D>(l: IoDeviceList<D>) {
    |l.configs| == |l.devices| && forall w :: w in l.addressMap ==> l.addressMap[w] < |l.devices|
  }

  function Empty<D>(): IoDeviceList<D> {
    IoDeviceList([], [], map[])
  }

  /** Whether `w` is the word form of one of `addresses`. */
  predicate Listed(addresses: seq<bv16>, w: Word) {
    exists i :: 0 <= i < |addresses| && FromAddress(addresses[i]) == w
  }

  /** `m` with each of `addresses` mapped to `id`, in order. */
  function MapAddresses(m: map<Word, nat>, addresses: seq<bv16>, id: nat): (r: map<Word, nat>)
    ensures forall w :: w in r <==> w in m || Listed(addresses, w)
    ensures forall w :: Listed(addresses, w) ==> r[w] == id
    ensures forall w :: w in m && !Listed(addresses, w) ==> r[w] == m[w]
    decreases |addresses|
  {
    if |addresses| == 0 then m
    else
      var r := MapAddresses(m[FromAddress(addresses[0]) := id], addresses[1..], id);
      assert forall i :: 1 <= i < |addresses| ==> addresses[i] == addresses[1..][i - 1];
      assert forall w :: Listed(addresses, w) <==> w == FromAddress(addresses[0]) || Listed(addresses[1..], w);
      r
  }

  /** Adds a device at the end; its id is its index, and each of its addresses now maps to it. */
  function AddDevice<D>(l: IoDeviceList<D>, addresses: seq<bv16>, device: D, kind: Option<InterruptKind>, speed: Speed): (nat, IoDeviceList<D>) {
    var id := |l.devices|;
    (id, IoDeviceList(l.devices + [device], l.configs + [Config(kind, speed)], MapAddresses(l.addressMap, addresses, id)))
  }

  /** The id of the device answering `address`, if any. */
  function DeviceAt<D>(l: IoDeviceList<D>, address: Word): Option<nat> {
    if address in l.addressMap then Some(l.addressMap[address]) else None
  }

  /** The configuration stored with a device; the source indexes the list, which panics for an unknown id. */
  function ConfigOf<D>(l: IoDeviceList<D>, id: nat): Config
    requires Valid(l) && id < |l.devices|
  {
    l.configs[id]
  }

  /** The ids of the devices whose interrupt line is `kind`, in id order. */
  function ByInterruptKind(configs: seq<Config>, kind: InterruptKind): (r: seq<nat>)
    ensures forall j :: 0 <= j < |r| ==> r[j] < |configs| && configs[r[j]].interruptKind == Some(kind)
    ensures forall i :: 0 <= i < |configs| && configs[i].interruptKind == Some(kind) ==> i in r
    ensures forall j, k :: 0 <= j < k < |r| ==> r[j] < r[k]
  {
    if |configs| == 0 then []
    else
      var last := |configs| - 1;
      var front := ByInterruptKind(configs[..last], kind);
      assert forall i :: 0 <= i < last ==> configs[..last][i] == configs[i];
      if configs[last].interruptKind == Some(kind) then front + [last] else front
  }

  // ------------------------------------------------------------ properties

  /** Adding a device hands out the next id, stores its configuration at that id and keeps the list valid. */
  lemma AddDeviceEffect<D>(l: IoDeviceList<D>, addresses: seq<bv16>, device: D, kind: Option<InterruptKind>, speed: Speed)
    requires Valid(l)
    ensures AddDevice(l, addresses, device, kind, speed).0 == |l.devices|
    ensures Valid(AddDevice(l, addresses, device, kind, speed).1)
    ensures AddDevice(l, addresses, device, kind, speed).1.devices == l.devices + [device]
    ensures ConfigOf(AddDevice(l, addresses, device, kind, speed).1, |l.devices|) == Config(kind, speed)
    ensures forall id :: 0 <= id < |l.devices| ==> ConfigOf(AddDevice(l, addresses, device, kind, speed).1, id) == ConfigOf(l, id)
  {
  }

  /**
   * After adding, each listed address finds the new device, even if an
   * earlier device had registered it; every other address finds what it
   * found before.
   */
  lemma AddDeviceAddresses<D>(l: IoDeviceList<D>, addresses: seq<bv16>, device: D, kind: Option<InterruptKind>, speed: Speed)
    ensures forall i :: 0 <= i < |addresses| ==>
      DeviceAt(AddDevice(l, addresses, device, kind, speed).1, FromAddress(addresses[i])) == Some(|l.devices|)
    ensures forall w :: !Listed(addresses, w) ==> DeviceAt(AddDevice(l, addresses, device, kind, speed).1, w) == DeviceAt(l, w)
  {
    var r := AddDevice(l, addresses, device, kind, speed).1;
    forall i | 0 <= i < |addresses|
      ensures DeviceAt(r, FromAddress(addresses[i])) == Some(|l.devices|)
    {
      assert Listed(addresses, FromAddress(addresses[i]));
    }
  }

  /** No device is found at an address that was never registered; a found id names a device. */
  lemma DeviceAtUnregistered<D>(l: IoDeviceList<D>, address: Word)
    requires Valid(l)
    ensures DeviceAt(l, address).None? <==> address !in l.addressMap
    ensures DeviceAt(Empty<D>(), address).None?
    ensures DeviceAt(l, address).Some? ==> DeviceAt(l, address).value < |l.devices|
  {
  }

  /** Two devices registered for the same address: the later one wins. */
  lemma LaterRegistrationWins<D>(a: D, b: D, address: bv16)
    ensures var (_, l1) := AddDevice(Empty(), [address], a, None, TwoMhz);
      var (j, l2) := AddDevice(l1, [address], b, None, OneMhz);
      j == 1 && DeviceAt(l2, FromAddress(address)) == Some(1)
  {
    var (_, l1) := AddDevice(Empty(), [address], a, None, TwoMhz);
    AddDeviceAddresses(l1, [address], b, None, OneMhz);
  }
}
