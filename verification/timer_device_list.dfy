/**
 * The list of timer devices (ch22-core/src/devices_lib/timer_device_list.rs).
 * Each device carries an optional trigger cycle; the list caches the
 * earliest trigger in `nextSync`, so the clock can ask cheaply whether any
 * device is due. Syncing at a cycle calls exactly the devices due then and
 * takes their returned triggers.
 *
 * The devices are of any type `T`; what a device does when synced is the
 * function `sync`, which gives its new state and its next trigger.
 */
module TimerDevices {
  import opened Optional

  type Trigger = Option<nat>

  /** A device and its trigger; a sync gives the device's new state and its next trigger in the same shape. */
  datatype Entry<T> = Entry(device: T, trigger: Trigger)

  datatype TimerDeviceList<T> = TimerDeviceList(entries: seq<Entry<T>>, nextSync: Trigger)

  function Triggers<T>(es: seq<Entry<T>>): (ts: seq<Trigger>)
    ensures |ts| == |es| && forall i :: 0 <= i < |es| ==> ts[i] == es[i].trigger
  {
    seq(|es|, i requires 0 <= i < |es| => es[i].trigger)
  }

  /** `nextSync` caches the earliest trigger. */
  predicate Valid<T>(l: TimerDeviceList<T>) {
    l.nextSync == Earliest(Triggers(l.entries))
  }

  function Empty<T>(): TimerDeviceList<T> {
    TimerDeviceList([], None)
  }

  /** The earliest trigger set in `ts`, or `None` when none is set. */
  function Earliest(ts: seq<Trigger>): (r: Trigger)
    ensures r.None? <==> forall i :: 0 <= i < |ts| ==> ts[i].None?
    ensures r.Some? ==> r in ts
    ensures r.Some? ==> forall i :: 0 <= i < |ts| && ts[i].Some? ==> r.value <= ts[i].value
  {
    if |ts| == 0 then None
    else
      var rest := Earliest(ts[1..]);
      assert forall i :: 1 <= i < |ts| ==> ts[i] == ts[1..][i - 1];
      match ts[0]
      case None => rest
      case Some(c) => if rest.Some? && rest.value < c then rest else Some(c)
  }

  /** A new device goes at the end without a trigger; its id is its index. */
  function AddDevice<T>(l: TimerDeviceList<T>, device: T): (nat, TimerDeviceList<T>) {
    (|l.entries|, l.(entries := l.entries + [Entry(device, None)]))
  }

  /** The source indexes the device vector, which panics for an id it never handed out. */
  function SetDeviceTrigger<T>(l: TimerDeviceList<T>, id: nat, trigger: Trigger): TimerDeviceList<T>
    requires id < |l.entries|
  {
    var es := l.entries[id := l.entries[id].(trigger := trigger)];
    TimerDeviceList(es, Earliest(Triggers(es)))
  }

  predicate NeedsSync<T>(l: TimerDeviceList<T>, cycles: nat) {
    l.nextSync.Some? && l.nextSync.value == cycles
  }

  /** The entries after syncing, in id order, each device whose trigger is `cycles`. */
  function SyncDue<T>(es: seq<Entry<T>>, cycles: nat, sync: (T, nat) -> Entry<T>): (r: seq<Entry<T>>)
    ensures |r| == |es|
    ensures forall i :: 0 <= i < |es| && es[i].trigger == Some(cycles) ==> r[i] == sync(es[i].device, cycles)
    ensures forall i :: 0 <= i < |es| && es[i].trigger != Some(cycles) ==> r[i] == es[i]
  {
    if |es| == 0 then []
    else
      var rest := SyncDue(es[1..], cycles, sync);
      var first := if es[0].trigger == Some(cycles) then sync(es[0].device, cycles) else es[0];
      assert forall i :: 1 <= i < |es| ==> es[i] == es[1..][i - 1];
      [first] + rest
  }

  function Sync<T>(l: TimerDeviceList<T>, cycles: nat, sync: (T, nat) -> Entry<T>): TimerDeviceList<T> {
    if !NeedsSync(l, cycles) then l
    else
      var es := SyncDue(l.entries, cycles, sync);
      TimerDeviceList(es, Earliest(Triggers(es)))
  }

  // ------------------------------------------------------------ properties

  /** A device added without a trigger does not move the earliest trigger. */
  lemma {:induction false} EarliestAppendNone(ts: seq<Trigger>)
    ensures Earliest(ts + [None]) == Earliest(ts)
  {
    if |ts| > 0 {
      assert (ts + [None])[1..] == ts[1..] + [None];
      EarliestAppendNone(ts[1..]);
    }
  }

  /** Ids are handed out 0, 1, 2, …; the new device has no trigger, the others are kept and the list stays valid. */
  lemma AddDeviceEffect<T>(l: TimerDeviceList<T>, device: T)
    requires Valid(l)
    ensures AddDevice(l, device).0 == |l.entries|
    ensures Valid(AddDevice(l, device).1)
    ensures AddDevice(l, device).1.entries[AddDevice(l, device).0] == Entry(device, None)
    ensures AddDevice(l, device).1.entries[..|l.entries|] == l.entries
    ensures AddDevice(l, device).1.nextSync == l.nextSync
  {
    var es := AddDevice(l, device).1.entries;
    assert Triggers(es) == Triggers(l.entries) + [None];
    EarliestAppendNone(Triggers(l.entries));
  }

  /** Three devices added to an empty list get ids 0, 1 and 2. */
  lemma ConsecutiveIds<T>(a: T, b: T, c: T)
    ensures var (i, l1) := AddDevice(Empty(), a);
      var (j, l2) := AddDevice(l1, b);
      var (k, _) := AddDevice(l2, c);
      i == 0 && j == 1 && k == 2
  {
  }

  /** Setting a trigger changes that device's trigger only, and `nextSync` becomes the earliest of all. */
  lemma SetDeviceTriggerEffect<T>(l: TimerDeviceList<T>, id: nat, trigger: Trigger)
    requires id < |l.entries|
    ensures Valid(SetDeviceTrigger(l, id, trigger))
    ensures SetDeviceTrigger(l, id, trigger).entries[id] == Entry(l.entries[id].device, trigger)
    ensures forall i :: 0 <= i < |l.entries| && i != id ==> SetDeviceTrigger(l, id, trigger).entries[i] == l.entries[i]
    ensures |SetDeviceTrigger(l, id, trigger).entries| == |l.entries|
  {
  }

  /** Needing a sync at `c` means some device is due at `c` and none earlier. */
  lemma NeedsSyncMeansDue<T>(l: TimerDeviceList<T>, cycles: nat)
    requires Valid(l)
    ensures NeedsSync(l, cycles) <==>
      (exists i :: 0 <= i < |l.entries| && l.entries[i].trigger == Some(cycles)) &&
      (forall i :: 0 <= i < |l.entries| && l.entries[i].trigger.Some? ==> cycles <= l.entries[i].trigger.value)
  {
    var ts := Triggers(l.entries);
    if NeedsSync(l, cycles) {
      var i :| 0 <= i < |ts| && ts[i] == l.nextSync;
      assert l.entries[i].trigger == Some(cycles);
    }
    if (exists i :: 0 <= i < |l.entries| && l.entries[i].trigger == Some(cycles)) &&
      (forall i :: 0 <= i < |l.entries| && l.entries[i].trigger.Some? ==> cycles <= l.entries[i].trigger.value)
    {
      var i :| 0 <= i < |l.entries| && l.entries[i].trigger == Some(cycles);
      assert ts[i] == Some(cycles);
      var j :| 0 <= j < |ts| && ts[j] == l.nextSync;
      assert l.entries[j].trigger == l.nextSync;
    }
  }

  /** Syncing at a cycle where no sync is needed changes nothing. */
  lemma SyncNotNeeded<T>(l: TimerDeviceList<T>, cycles: nat, sync: (T, nat) -> Entry<T>)
    requires !NeedsSync(l, cycles)
    ensures Sync(l, cycles, sync) == l
  {
  }

  /**
   * When a sync is needed, exactly the devices whose trigger is `cycles` are
   * synced and take the returned state and trigger; the others are
   * untouched, and `nextSync` is the earliest of the new triggers.
   */
  lemma SyncEffect<T>(l: TimerDeviceList<T>, cycles: nat, sync: (T, nat) -> Entry<T>)
    requires NeedsSync(l, cycles)
    ensures Valid(Sync(l, cycles, sync))
    ensures |Sync(l, cycles, sync).entries| == |l.entries|
    ensures forall i :: 0 <= i < |l.entries| && l.entries[i].trigger == Some(cycles) ==>
      Sync(l, cycles, sync).entries[i] == sync(l.entries[i].device, cycles)
    ensures forall i :: 0 <= i < |l.entries| && l.entries[i].trigger != Some(cycles) ==>
      Sync(l, cycles, sync).entries[i] == l.entries[i]
  {
  }

  /** Syncing keeps the list valid whether or not a sync was needed. */
  lemma SyncValid<T>(l: TimerDeviceList<T>, cycles: nat, sync: (T, nat) -> Entry<T>)
    requires Valid(l)
    ensures Valid(Sync(l, cycles, sync))
    ensures |Sync(l, cycles, sync).entries| == |l.entries|
  {
  }

  /** Two devices with triggers 4 and 8 need a sync at 4 and not at 8. */
  lemma EarliestOnly<T>(l: TimerDeviceList<T>)
    requires |l.entries| == 2
    ensures var a := SetDeviceTrigger(SetDeviceTrigger(l, 0, Some(4)), 1, Some(8));
      NeedsSync(a, 4) && !NeedsSync(a, 8)
  {
    var a := SetDeviceTrigger(SetDeviceTrigger(l, 0, Some(4)), 1, Some(8));
    var ts := Triggers(a.entries);
    assert ts == [Some(4), Some(8)];
    assert Earliest(ts[1..]) == Some(8);
  }

  /**
   * Two devices both due at 4 that ask for 8 and 12 when synced leave a sync
   * needed at 8 and at no other of the three cycles.
   */
  lemma EarliestAfterSync<T>(l: TimerDeviceList<T>, sync: (T, nat) -> Entry<T>)
    requires Valid(l) && |l.entries| == 2
    requires l.entries[0].trigger == Some(4) && l.entries[1].trigger == Some(4)
    requires sync(l.entries[0].device, 4).trigger == Some(8) && sync(l.entries[1].device, 4).trigger == Some(12)
    ensures !NeedsSync(Sync(l, 4, sync), 4) && NeedsSync(Sync(l, 4, sync), 8) && !NeedsSync(Sync(l, 4, sync), 12)
  {
    var ts := Triggers(l.entries);
    assert ts == [Some(4), Some(4)];
    assert Earliest(ts[1..]) == Some(4);
    var s := Sync(l, 4, sync);
    SyncEffect(l, 4, sync);
    var ts' := Triggers(s.entries);
    assert ts' == [Some(8), Some(12)];
    assert Earliest(ts'[1..]) == Some(12);
  }
}
