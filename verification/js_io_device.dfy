/**
 * An IO device implemented in JavaScript (ch22-core/src/devices/js_io_device.rs).
 * The read, write and trigger callbacks are parameters here. Each callback
 * answers with one `u64`: the low byte is the value read, the next byte
 * holds flags (bit 0: a trigger follows, bit 1: interrupt raised) and the
 * top six bytes are the trigger cycle. Every answer replaces the device's
 * interrupt and trigger.
 *
 * A device created for phase-2 writes does not call back on a write: it
 * keeps the value and asks for phase 2, where the callback is made.
 */
module JsIoDevices {
  import opened Optional
  import opened Words

  type U64 = x: int | 0 <= x < 0x1_0000_0000_0000_0000

  type U8 = x: int | 0 <= x < 0x100

  /** The decoded parts of a callback's answer. */
  datatype Params = Params(value: U8, interrupt: bool, trigger: Option<nat>)

  /** Bits 8..15 of the answer. */
  function Flags(p: U64): nat {
    (p / 0x100) % 0x100
  }

  /** The trigger cycle, bits 16..63, when flag bit 0 is set. */
  function TriggerOf(p: U64): Option<nat> {
    if Flags(p) % 2 == 1 then Some(p / 0x1_0000) else None
  }

  function ValueOf(p: U64): U8 {
    p % 0x100
  }

  function Decode(p: U64): Params {
    Params(ValueOf(p), Flags(p) % 4 >= 2, TriggerOf(p))
  }

  /** A trigger that fits the answer's top six bytes. */
  predicate Encodable(x: Params) {
    x.trigger.Some? ==> x.trigger.value < 0x1_0000_0000_0000
  }

  /** The answer a callback gives for `x`, with the unused flag bits clear. */
  function Encode(x: Params): U64
    requires Encodable(x)
  {
    var flags := (if x.interrupt then 2 else 0) + (if x.trigger.Some? then 1 else 0);
    var trigger := if x.trigger.Some? then x.trigger.value else 0;
    x.value + 0x100 * flags + 0x1_0000 * trigger
  }

  datatype JsIoDevice = JsIoDevice(trigger: Option<nat>, phase2Data: Option<bv8>, interrupt: bool, phase2Write: bool)

  /** The JavaScript side: read(address, cycles), write(address, value, cycles) and the trigger handler(cycles). */
  datatype Callbacks = Callbacks(read: (bv16, nat) -> U64, write: (bv16, bv8, nat) -> U64, handleTrigger: nat -> U64)

  datatype Answered = Answered(device: JsIoDevice, value: U8)
  datatype Written = Written(device: JsIoDevice, phase2: bool)
  datatype Phase2Result = Phase2Done(device: JsIoDevice) | MissingValue
  datatype Interrupt = Interrupt(device: JsIoDevice, interrupt: bool)

  function New(phase2Write: bool): JsIoDevice {
    JsIoDevice(None, None, false, phase2Write)
  }

  /** Takes a callback's answer: its interrupt and trigger replace the device's, and its value is returned. */
  function SetParams(d: JsIoDevice, p: U64): Answered {
    var x := Decode(p);
    Answered(d.(interrupt := x.interrupt, trigger := x.trigger), x.value)
  }

  function Read(d: JsIoDevice, address: Word, cycles: nat, cb: Callbacks): Answered {
    SetParams(d, cb.read(ToAddress(address), cycles))
  }

  function Write(d: JsIoDevice, address: Word, value: bv8, cycles: nat, cb: Callbacks): Written {
    if !d.phase2Write then Written(SetParams(d, cb.write(ToAddress(address), value, cycles)).device, false)
    else Written(d.(phase2Data := Some(value)), true)
  }

  /** Makes the deferred write's callback; with no value kept this is the source's unwrap panic. */
  function Phase2(d: JsIoDevice, address: Word, cycles: nat, cb: Callbacks): Phase2Result {
    match d.phase2Data
    case None => MissingValue
    case Some(value) => Phase2Done(SetParams(d, cb.write(ToAddress(address), value, cycles)).device)
  }

  /** Calls the trigger handler when a trigger is set and due. */
  function Sync(d: JsIoDevice, cycles: nat, cb: Callbacks): JsIoDevice {
    if d.trigger.Some? && d.trigger.value <= cycles then SetParams(d, cb.handleTrigger(cycles)).device
    else d
  }

  function GetInterrupt(d: JsIoDevice, cycles: nat, cb: Callbacks): Interrupt {
    var s := Sync(d, cycles, cb);
    Interrupt(s, s.interrupt)
  }

  function SetInterrupt(d: JsIoDevice, interrupt: bool): JsIoDevice {
    d.(interrupt := interrupt)
  }

  // ------------------------------------------------------------ properties

  lemma DivMod256(p: int, a: int, b: int)
    requires 0 <= a < 0x100 && p == a + 0x100 * b
    ensures p % 0x100 == a && p / 0x100 == b
  {
  }

  lemma DivMod65536(p: int, a: int, b: int)
    requires 0 <= a < 0x1_0000 && p == a + 0x1_0000 * b
    ensures p % 0x1_0000 == a && p / 0x1_0000 == b
  {
  }

  /** An answer is its value, then its flags, then its trigger field. */
  lemma Fields(p: U64)
    ensures p == ValueOf(p) + 0x100 * Flags(p) + 0x1_0000 * (p / 0x1_0000)
    ensures p / 0x1_0000 < 0x1_0000_0000_0000
  {
    var q := p / 0x100;
    DivMod256(p, p % 0x100, q);
    DivMod256(q, q % 0x100, q / 0x100);
    DivMod65536(p, p % 0x100 + 0x100 * (q % 0x100), q / 0x100);
  }

  /** The value is bits 0..7, the interrupt bit 9, and the trigger bits 16..63 exactly when bit 8 is set. */
  lemma DecodeBits(p: U64)
    ensures Decode(p).value == p % 0x100
    ensures Decode(p).interrupt <==> (p / 0x200) % 2 == 1
    ensures Decode(p).trigger.Some? <==> (p / 0x100) % 2 == 1
    ensures Decode(p).trigger.Some? ==> Decode(p).trigger.value == p / 0x1_0000 < 0x1_0000_0000_0000
  {
    Fields(p);
    FlagBits(p / 0x100);
    NinthBit(p);
  }

  /** Flag bits 0 and 1 are bits 0 and 1 of the answer shifted right by eight. */
  lemma FlagBits(q: nat)
    ensures (q % 0x100) % 2 == q % 2
    ensures (q % 0x100) % 4 >= 2 <==> (q / 2) % 2 == 1
  {
    var f := q % 0x100;
    var h := q / 0x100;
    LowBit(q, f, h);
    SecondBit(q, f, h);
  }

  lemma LowBit(q: int, f: int, h: int)
    requires q == f + 0x100 * h
    ensures q % 2 == f % 2
  {
    Parity(q, f, 0x80 * h);
  }

  lemma SecondBit(q: int, f: int, h: int)
    requires 0 <= f < 0x100 && q == f + 0x100 * h
    ensures f % 4 >= 2 <==> (q / 2) % 2 == 1
  {
    var g := f / 2;
    Halve(f, g, f % 2);
    Halve(q, g + 0x80 * h, f % 2);
    Parity(q / 2, g, 0x40 * h);
    Halve(f % 4, g % 2, f % 2);
  }

  /** Adding an even number keeps the low bit. */
  lemma Parity(x: int, a: int, k: int)
    requires x == a + 2 * k
    ensures x % 2 == a % 2
  {
  }

  lemma Halve(x: int, h: int, b: int)
    requires 0 <= b < 2 && x == 2 * h + b
    ensures x / 2 == h
  {
  }

  lemma NinthBit(p: nat)
    ensures p / 0x200 == (p / 0x100) / 2
  {
  }

  /** Decoding an encoded answer gives back what was encoded. */
  lemma DecodeEncode(x: Params)
    requires Encodable(x)
    ensures Decode(Encode(x)) == x
  {
    var p := Encode(x);
    var flags := (if x.interrupt then 2 else 0) + (if x.trigger.Some? then 1 else 0);
    var trigger := if x.trigger.Some? then x.trigger.value else 0;
    DivMod256(p, x.value, flags + 0x100 * trigger);
    DivMod256(p / 0x100, flags, trigger);
    DivMod65536(p, x.value + 0x100 * flags, trigger);
  }

  /** Encoding a decoded answer gives it back exactly when the unused flag bits are clear and, with no trigger, so are the top six bytes. */
  lemma EncodeDecode(p: U64)
    ensures Encodable(Decode(p))
    ensures Encode(Decode(p)) == p <==> Flags(p) < 4 && (Flags(p) % 2 == 0 ==> p < 0x1_0000)
  {
    Fields(p);
    var x := Decode(p);
    var flags := (if x.interrupt then 2 else 0) + (if x.trigger.Some? then 1 else 0);
    var trigger := if x.trigger.Some? then x.trigger.value else 0;
    assert flags == Flags(p) % 4;
    assert Encode(x) == ValueOf(p) + 0x100 * flags + 0x1_0000 * trigger;
  }

  /**
   * With a read callback answering `Encode(x)`, a read returns `x.value`
   * and the device takes `x.interrupt` and `x.trigger`; the phase-2 state is
   * kept.
   */
  lemma ReadAnswer(d: JsIoDevice, address: Word, cycles: nat, cb: Callbacks, x: Params)
    requires Encodable(x) && cb.read(ToAddress(address), cycles) == Encode(x)
    ensures Read(d, address, cycles, cb).value == x.value
    ensures Read(d, address, cycles, cb).device.interrupt == x.interrupt
    ensures Read(d, address, cycles, cb).device.trigger == x.trigger
    ensures Read(d, address, cycles, cb).device.phase2Data == d.phase2Data
    ensures Read(d, address, cycles, cb).device.phase2Write == d.phase2Write
  {
    DecodeEncode(x);
  }

  /**
   * Without phase-2 writes, a write with a callback answering `Encode(x)`
   * takes `x.interrupt` and `x.trigger` at once and asks for no phase 2.
   */
  lemma WriteAnswer(d: JsIoDevice, address: Word, value: bv8, cycles: nat, cb: Callbacks, x: Params)
    requires !d.phase2Write && Encodable(x) && cb.write(ToAddress(address), value, cycles) == Encode(x)
    ensures !Write(d, address, value, cycles, cb).phase2
    ensures Write(d, address, value, cycles, cb).device == d.(interrupt := x.interrupt, trigger := x.trigger)
  {
    DecodeEncode(x);
  }

  /**
   * With phase-2 writes, a write makes no callback: its outcome is the same
   * whatever the callbacks are, it keeps the value, asks for phase 2, and
   * leaves interrupt and trigger as they were.
   */
  lemma WriteDeferredNoCallback(d: JsIoDevice, address: Word, value: bv8, cycles: nat, cb: Callbacks, cb': Callbacks)
    requires d.phase2Write
    ensures Write(d, address, value, cycles, cb) == Write(d, address, value, cycles, cb')
    ensures Write(d, address, value, cycles, cb).phase2
    ensures Write(d, address, value, cycles, cb).device.phase2Data == Some(value)
    ensures Write(d, address, value, cycles, cb).device.interrupt == d.interrupt
    ensures Write(d, address, value, cycles, cb).device.trigger == d.trigger
  {
  }

  /**
   * Phase 2 on a device that has not deferred a write is the source's
   * unwrap panic; after a deferred write it always completes.
   */
  lemma Phase2NeedsWrite(phase2Write: bool, d: JsIoDevice, address: Word, value: bv8, cycles: nat, cycles': nat, cb: Callbacks)
    requires d.phase2Write
    ensures Phase2(New(phase2Write), address, cycles', cb) == MissingValue
    ensures Phase2(Write(d, address, value, cycles, cb).device, address, cycles', cb).Phase2Done?
  {
  }

  /** A deferred write followed by phase 2 makes the same callback the direct write would have made. */
  lemma DeferredWriteThenPhase2(d: JsIoDevice, address: Word, value: bv8, cycles: nat, cycles': nat, cb: Callbacks)
    requires d.phase2Write
    ensures var w := Write(d, address, value, cycles, cb).device;
      var p := Decode(cb.write(ToAddress(address), value, cycles'));
      Phase2(w, address, cycles', cb) == Phase2Done(JsIoDevice(p.trigger, Some(value), p.interrupt, true))
  {
  }

  /**
   * When a due trigger's handler answers `Encode(x)`, the device takes
   * `x.interrupt` and `x.trigger`, reports `x.interrupt` when asked, and a
   * later sync before the new trigger (or with none set) does nothing.
   */
  lemma SyncAnswer(d: JsIoDevice, cycles: nat, later: nat, cb: Callbacks, x: Params)
    requires d.trigger.Some? && d.trigger.value <= cycles
    requires Encodable(x) && cb.handleTrigger(cycles) == Encode(x)
    ensures Sync(d, cycles, cb) == d.(interrupt := x.interrupt, trigger := x.trigger)
    ensures GetInterrupt(d, cycles, cb).interrupt == x.interrupt
    ensures x.trigger.None? || later < x.trigger.value ==> Sync(Sync(d, cycles, cb), later, cb) == Sync(d, cycles, cb)
  {
    DecodeEncode(x);
  }

  /** Asking for the interrupt syncs first and reports the flag after the sync; setting it overwrites the flag only. */
  lemma InterruptEffect(d: JsIoDevice, cycles: nat, cb: Callbacks, b: bool)
    ensures GetInterrupt(d, cycles, cb).device == Sync(d, cycles, cb)
    ensures GetInterrupt(d, cycles, cb).interrupt == Sync(d, cycles, cb).interrupt
    ensures d.trigger.None? ==> GetInterrupt(d, cycles, cb) == Interrupt(d, d.interrupt)
    ensures SetInterrupt(d, b).interrupt == b && SetInterrupt(d, b).(interrupt := d.interrupt) == d
  {
  }
}
