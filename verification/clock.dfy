/**
 * The system clock (ch22-core/src/clock.rs): the 2 MHz cycle count and the
 * timer devices it syncs each time it ticks. `OneMhzSync` stretches an
 * access to a 1 MHz device onto an even cycle.
 */
module Clocks {
  import opened TimerDevices

  datatype Clock<T> = Clock(cycles: nat, timers: TimerDeviceList<T>)

  function GetCycles<T>(c: Clock<T>): nat {
    c.cycles
  }

  /** One cycle on, then the timer devices due at the new count are synced. */
  function Inc<T>(c: Clock<T>, sync: (T, nat) -> Entry<T>): Clock<T> {
    var cycles := c.cycles + 1;
    Clock(cycles, Sync(c.timers, cycles, sync))
  }

  /** Ticks once when the count is odd, so that it ends even. */
  function OneMhzSync<T>(c: Clock<T>, sync: (T, nat) -> Entry<T>): Clock<T> {
    if c.cycles % 2 != 0 then Inc(c, sync) else c
  }

  // ------------------------------------------------------------ properties

  /** `Inc` adds exactly one cycle and syncs the timers at the new count, keeping their cache valid. */
  lemma IncEffect<T>(c: Clock<T>, sync: (T, nat) -> Entry<T>)
    requires Valid(c.timers)
    ensures Inc(c, sync).cycles == c.cycles + 1
    ensures Inc(c, sync).timers == Sync(c.timers, c.cycles + 1, sync)
    ensures Valid(Inc(c, sync).timers)
  {
    SyncValid(c.timers, c.cycles + 1, sync);
  }

  /** After `OneMhzSync` the count is even; it went up by one exactly when it was odd, and otherwise nothing changed. */
  lemma OneMhzSyncEffect<T>(c: Clock<T>, sync: (T, nat) -> Entry<T>)
    ensures OneMhzSync(c, sync).cycles % 2 == 0
    ensures OneMhzSync(c, sync).cycles == c.cycles + 1 <==> c.cycles % 2 == 1
    ensures c.cycles % 2 == 0 ==> OneMhzSync(c, sync) == c
    ensures OneMhzSync(c, sync).cycles <= c.cycles + 1
  {
  }

  /** Neither operation ever moves the count backwards. */
  lemma CyclesNeverDecrease<T>(c: Clock<T>, sync: (T, nat) -> Entry<T>)
    ensures GetCycles(Inc(c, sync)) > GetCycles(c)
    ensures GetCycles(OneMhzSync(c, sync)) >= GetCycles(c)
  {
  }

  /** Syncing an already even count to 1 MHz is a no-op, so the sync is idempotent. */
  lemma OneMhzSyncIdempotent<T>(c: Clock<T>, sync: (T, nat) -> Entry<T>)
    ensures OneMhzSync(OneMhzSync(c, sync), sync) == OneMhzSync(c, sync)
  {
  }
}
