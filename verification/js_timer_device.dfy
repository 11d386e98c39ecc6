/**
 * A timer device implemented in JavaScript
 * (ch22-core/src/devices/js_timer_device.rs). The device keeps an optional
 * trigger cycle; a sync at or past the trigger calls the handler, whose
 * `u64` answer carries the next trigger in the same layout as a JS IO
 * device's answer (bit 8 set: the trigger is bits 16..63).
 */
module JsTimerDevices {
  import opened Optional
  import JsIoDevices

  datatype JsTimerDevice = JsTimerDevice(trigger: Option<nat>)

  function New(): JsTimerDevice {
    JsTimerDevice(None)
  }

  /** The trigger an answer carries; the answer's other bytes are ignored. */
  function TriggerParams(p: JsIoDevices.U64): Option<nat> {
    JsIoDevices.TriggerOf(p)
  }

  /** Calls the handler when a trigger is set and due; its answer replaces the trigger. */
  function Sync(d: JsTimerDevice, cycles: nat, handle: nat -> JsIoDevices.U64): JsTimerDevice {
    if d.trigger.Some? && d.trigger.value <= cycles then JsTimerDevice(TriggerParams(handle(cycles)))
    else d
  }

  function SetTrigger(d: JsTimerDevice, trigger: Option<nat>): JsTimerDevice {
    d.(trigger := trigger)
  }

  // ------------------------------------------------------------ properties

  /** An answer sets a trigger exactly when its bit 8 is set, and the trigger is the answer shifted right by sixteen. */
  lemma TriggerParamsBits(p: JsIoDevices.U64)
    ensures TriggerParams(p).Some? <==> (p / 0x100) % 2 == 1
    ensures TriggerParams(p).Some? ==> TriggerParams(p).value == p / 0x1_0000
  {
    JsIoDevices.DecodeBits(p);
  }

  /** A handler answering with an encoded trigger sets exactly that trigger, whatever the value and interrupt bytes say. */
  lemma TriggerParamsEncoded(x: JsIoDevices.Params)
    requires JsIoDevices.Encodable(x)
    ensures TriggerParams(JsIoDevices.Encode(x)) == x.trigger
  {
    JsIoDevices.DecodeEncode(x);
  }

  /**
   * A due sync whose handler answers `Encode(x)` sets the trigger to
   * `x.trigger`; a later sync before that trigger (or with none set) does
   * nothing, and one at or past it fires again.
   */
  lemma SyncReschedules(d: JsTimerDevice, cycles: nat, later: nat, handle: nat -> JsIoDevices.U64, x: JsIoDevices.Params)
    requires d.trigger.Some? && d.trigger.value <= cycles
    requires JsIoDevices.Encodable(x) && handle(cycles) == JsIoDevices.Encode(x)
    ensures Sync(d, cycles, handle).trigger == x.trigger
    ensures x.trigger.None? || later < x.trigger.value ==> Sync(Sync(d, cycles, handle), later, handle) == Sync(d, cycles, handle)
    ensures x.trigger.Some? && x.trigger.value <= later ==>
      Sync(Sync(d, cycles, handle), later, handle) == JsTimerDevice(TriggerParams(handle(later)))
  {
    TriggerParamsEncoded(x);
  }

  /** When a sync fires, the new trigger depends on the handler's answer only, not on the trigger that fired. */
  lemma SyncFires(d: JsTimerDevice, e: JsTimerDevice, cycles: nat, handle: nat -> JsIoDevices.U64)
    requires d.trigger.Some? && d.trigger.value <= cycles
    requires e.trigger.Some? && e.trigger.value <= cycles
    ensures Sync(d, cycles, handle) == Sync(e, cycles, handle)
  {
  }

  /** A fired sync whose handler answers with bit 8 clear leaves no trigger, so a later sync does nothing. */
  lemma SyncDisarms(d: JsTimerDevice, cycles: nat, later: nat, handle: nat -> JsIoDevices.U64)
    requires d.trigger.Some? && d.trigger.value <= cycles
    requires (handle(cycles) / 0x100) % 2 == 0
    ensures Sync(d, cycles, handle).trigger.None?
    ensures Sync(Sync(d, cycles, handle), later, handle) == Sync(d, cycles, handle)
  {
    TriggerParamsBits(handle(cycles));
  }

  /** Setting the trigger overwrites it: the last setting wins. */
  lemma SetTriggerOverwrites(d: JsTimerDevice, a: Option<nat>, b: Option<nat>)
    ensures SetTrigger(d, a).trigger == a
    ensures SetTrigger(SetTrigger(d, a), b) == SetTrigger(d, b)
  {
  }
}
