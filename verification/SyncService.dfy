/**
 * The sync service: a fixed-cadence poll of the high-validity time provider.
 * When an attempt is due and the provider answers with a non-zero time, the
 * time is pushed to the sync receiver and set on the epoch clock. The tick is
 * the free-running 32-bit millisecond counter, compared with modular
 * subtraction.
 */
module SyncService {
  import opened Clock

  const TWO16: nat := 0x1_0000
  const TWO32: nat := 0x1_0000_0000

  newtype U16 = x: int | 0 <= x < 0x1_0000
  newtype U32 = x: int | 0 <= x < 0x1_0000_0000

  /** `now - since` in uint32 arithmetic: the milliseconds elapsed, modulo 2^32. */
  function Elapsed(now: U32, since: U32): (e: U32)
    ensures since <= now ==> e as int == now as int - since as int
    ensures now < since ==> e as int == now as int + TWO32 - since as int
  {
    ((now as int - since as int) % TWO32) as U32
  }

  /** The elapsed time is recovered across a wrap of the counter, as long as it is under 2^32 ms. */
  lemma ElapsedAcrossWrap(since: U32, e: nat)
    requires e < TWO32
    ensures Elapsed(((since as int + e) % TWO32) as U32, since) as int == e
  {
  }

  /** The interval for `s` seconds, in milliseconds. */
  function IntervalMillis(s: U16): U32
  {
    (s as int * 1000) as U32
  }

  /**
   * The interval timeSyncServiceSetInterval stores: `interval * 1000` is an
   * unsigned 16-bit product on the target (16-bit int), so it wraps modulo 2^16
   * before it is widened to 32 bits.
   */
  function IntervalMillisAsWritten(s: U16): (ms: U32)
    ensures ms < 0x1_0000
  {
    ((s as int * 1000) % TWO16) as U32
  }

  /** The stored interval is the intended one exactly for intervals up to 65 seconds. */
  lemma IntervalWrapsAbove65(s: U16)
    ensures IntervalMillisAsWritten(s) == IntervalMillis(s) <==> s <= 65
    ensures IntervalMillisAsWritten(66) == 464
  {
    if s > 65 {
      assert s as int * 1000 >= 66000;
      assert IntervalMillisAsWritten(s) as int < 66000 <= IntervalMillis(s) as int;
    }
  }

  /** What one call of Process did: the green LED is switched on for `Synced`, off for `NoTime`. */
  datatype Outcome =
    | NotDue          // the interval has not elapsed since the last attempt
    | NoSource        // due, but no receiver or no high-validity provider is registered
    | NoTime          // due, and the provider answered 0
    | Synced(t: int)  // due, and `t` was pushed to the receiver and set on the clock

  class SyncService {
    var interval: U32        // milliseconds between attempts
    var lastTimeSynced: U32  // tick of the last attempt
    var hasReceiver: bool
    var hasHighProvider: bool
    var hasLowProvider: bool
    var received: seq<int>   // the times pushed to the receiver, oldest first

    /** The module's zero-initialised state (the interval is 0 until it is set). */
    constructor ()
      ensures interval == 0 && lastTimeSynced == 0
      ensures !hasReceiver && !hasHighProvider && !hasLowProvider && received == []
    {
      interval, lastTimeSynced := 0, 0;
      hasReceiver, hasHighProvider, hasLowProvider := false, false, false;
      received := [];
    }

    /** An attempt is due once `interval` milliseconds have elapsed since the last one. */
    predicate Due(millis: U32)
      reads this
    {
      Elapsed(millis, lastTimeSynced) >= interval
    }

    /**
     * timeSyncServiceProcess. The tick is read up to three times: `millis` for
     * the due test, `setMillis` by timeSetTime, and `endMillis` at the end of a
     * due attempt, after the provider and the receiver have run; the next
     * attempt is timed from that last reading. `reading` is what the
     * high-validity provider answers if it is asked. The low-validity provider
     * is never asked.
     */
    method Process(millis: U32, setMillis: U32, endMillis: U32, reading: int, clock: EpochClock) returns (outcome: Outcome)
      modifies this, clock
      ensures interval == old(interval) && hasReceiver == old(hasReceiver)
      ensures hasHighProvider == old(hasHighProvider) && hasLowProvider == old(hasLowProvider)
      ensures outcome == NotDue <==> !old(Due(millis))
      ensures outcome == NotDue ==> lastTimeSynced == old(lastTimeSynced)
      ensures outcome != NotDue ==> lastTimeSynced == endMillis
      ensures outcome == NoSource <==> old(Due(millis)) && !(hasReceiver && hasHighProvider)
      ensures outcome == NoTime <==> old(Due(millis)) && hasReceiver && hasHighProvider && reading == 0
      ensures outcome.Synced? <==> old(Due(millis)) && hasReceiver && hasHighProvider && reading != 0
      ensures outcome.Synced? ==> outcome.t == reading && received == old(received) + [reading]
      ensures outcome.Synced? ==>
        && clock.sysTime == reading && clock.nextSyncTime == reading + clock.syncInterval
        && clock.status == Set && clock.prevMillis == setMillis as nat
        && clock.syncInterval == old(clock.syncInterval) && clock.hasProvider == old(clock.hasProvider)
      ensures !outcome.Synced? ==> received == old(received) && unchanged(clock)
    {
      if Elapsed(millis, lastTimeSynced) < interval {
        return NotDue;
      }
      outcome := NoSource;
      if hasReceiver {
        if hasHighProvider {
          var t := reading;
          if t != 0 {
            received := received + [t];
            clock.SetTime(t, setMillis as nat);
            outcome := Synced(t);
          } else {
            outcome := NoTime;
          }
        }
      }
      lastTimeSynced := endMillis;
    }

    /**
     * timeSyncServiceSetInterval as written: the 16-bit product wraps, so
     * intervals above 65 seconds are stored modulo 65.536 seconds.
     */
    method SetIntervalAsWritten(s: U16)
      modifies this
      ensures interval == IntervalMillisAsWritten(s)
      ensures lastTimeSynced == old(lastTimeSynced) && received == old(received)
      ensures hasReceiver == old(hasReceiver) && hasHighProvider == old(hasHighProvider)
      ensures hasLowProvider == old(hasLowProvider)
    {
      interval := ((s as int * 1000) % TWO16) as U32;
    }

    /** timeSyncServiceSetInterval, corrected: the product is taken in 32 bits. */
    method SetInterval(s: U16)
      modifies this
      ensures interval == IntervalMillis(s) && interval as int == s as int * 1000
      ensures lastTimeSynced == old(lastTimeSynced) && received == old(received)
      ensures hasReceiver == old(hasReceiver) && hasHighProvider == old(hasHighProvider)
      ensures hasLowProvider == old(hasLowProvider)
    {
      interval := (s as int * 1000) as U32;
    }

    /** timeSyncServiceSetSyncReceiver: `present` stands for a non-null function pointer. */
    method SetSyncReceiver(present: bool)
      modifies this
      ensures hasReceiver == present
      ensures interval == old(interval) && lastTimeSynced == old(lastTimeSynced) && received == old(received)
      ensures hasHighProvider == old(hasHighProvider) && hasLowProvider == old(hasLowProvider)
    {
      hasReceiver := present;
    }

    /** timeSyncServiceSetSyncProviderHighValidity */
    method SetSyncProviderHighValidity(present: bool)
      modifies this
      ensures hasHighProvider == present
      ensures interval == old(interval) && lastTimeSynced == old(lastTimeSynced) && received == old(received)
      ensures hasReceiver == old(hasReceiver) && hasLowProvider == old(hasLowProvider)
    {
      hasHighProvider := present;
    }

    /** timeSyncServiceSetSyncProviderLowValidity: stored, and never consulted by Process. */
    method SetSyncProviderLowValidity(present: bool)
      modifies this
      ensures hasLowProvider == present
      ensures interval == old(interval) && lastTimeSynced == old(lastTimeSynced) && received == old(received)
      ensures hasReceiver == old(hasReceiver) && hasHighProvider == old(hasHighProvider)
    {
      hasLowProvider := present;
    }
  }

  /**
   * With the interval of 66 seconds, the service as written polls again after
   * 464 ms instead of 66 s; the corrected setter waits the full interval.
   */
  method ShortIntervalAfterSet66() returns (dueAsWritten: bool, dueCorrected: bool)
    ensures dueAsWritten && !dueCorrected
  {
    IntervalWrapsAbove65(66);
    var asWritten := new SyncService();
    asWritten.SetIntervalAsWritten(66);
    dueAsWritten := asWritten.Due(464);
    var corrected := new SyncService();
    corrected.SetInterval(66);
    dueCorrected := corrected.Due(464);
  }
}
