/**
 * The epoch clock of the firmware: the authoritative second counter
 * (`timesync`), advanced from the millisecond tick and resynchronised from an
 * external provider, and the one-entry cache of broken-down time that the
 * getters (hour, minute, weekday, ...) read through.
 *
 * The millisecond tick and the provider's answer are parameters of the
 * methods that would read them.
 */
module Clock {
  import opened Calendar

  type Int32 = x: int | -0x8000_0000 <= x < 0x8000_0000

  // ---------------------------------------------------------------------------
  // 12-hour clock face

  /** timeGetHourFormat12: the hour as shown on a 12-hour clock face. */
  function HourFormat12(hour: nat): (h: nat)
    requires hour < 24
    ensures 1 <= h <= 12
    ensures h % 12 == hour % 12
  {
    if hour == 0 then 12 else if hour > 12 then hour - 12 else hour
  }

  /** timeIsPM: the afternoon half of the day, from noon on. */
  predicate IsPM(hour: nat)
  {
    hour >= 12
  }

  /** The 12-hour face together with the AM/PM flag determines the hour of the day. */
  lemma HourFromFormat12(hour: nat)
    requires hour < 24
    ensures hour == HourFormat12(hour) % 12 + (if IsPM(hour) then 12 else 0)
  {
  }

  // ---------------------------------------------------------------------------
  // The cache of broken-down time

  /**
   * The one-entry cache behind the getters: `tm` holds the breakdown of
   * `cacheTime`, refreshed whenever another instant is asked for.
   */
  class TimeCache {
    var cacheTime: nat
    var tm: Elements

    ghost predicate Valid()
      reads this
    {
      tm == CivilOf(cacheTime)
    }

    /**
     * The static initialisation of the source: both the key and the cached
     * fields are zero, which is not the breakdown of instant 0.
     */
    constructor AsWritten()
      ensures cacheTime == 0 && tm == Elements(0, 0, 0, 0, 0, 0, 0)
      ensures !Valid()
    {
      cacheTime := 0;
      tm := Elements(0, 0, 0, 0, 0, 0, 0);
      new;
      EpochIsThursday();
    }

    /** The cache as intended: it starts out holding the breakdown of its key. */
    constructor ()
      ensures Valid() && cacheTime == 0
    {
      cacheTime := 0;
      tm := CivilOf(0);
    }

    /** timeRefreshCache: break `t` down unless it is the cached instant. */
    method Refresh(t: nat)
      modifies this
      ensures cacheTime == t
      ensures tm == if t == old(cacheTime) then old(tm) else CivilOf(t)
      ensures old(Valid()) ==> Valid()
    {
      if t != cacheTime {
        tm := BreakTime(t);
        cacheTime := t;
      }
    }

    method GetHour(t: nat) returns (hour: nat)
      modifies this
      ensures cacheTime == t && tm == if t == old(cacheTime) then old(tm) else CivilOf(t)
      ensures hour == tm.hour
      ensures old(Valid()) ==> Valid() && hour == CivilOf(t).hour
    {
      Refresh(t);
      hour := tm.hour;
    }

    method GetHourFormat12(t: nat) returns (hour: nat)
      modifies this
      ensures cacheTime == t && tm == if t == old(cacheTime) then old(tm) else CivilOf(t)
      ensures tm.hour < 24 ==> hour == HourFormat12(tm.hour)
      ensures old(Valid()) ==> Valid() && 1 <= hour <= 12 && hour == HourFormat12(CivilOf(t).hour)
    {
      Refresh(t);
      if tm.hour == 0 {
        hour := 12;  // hour 0 shows as 12
      } else if tm.hour > 12 {
        hour := tm.hour - 12;
      } else {
        hour := tm.hour;
      }
      if old(Valid()) {
        CivilOfInRange(t);
      }
    }

    method IsPMAt(t: nat) returns (pm: bool)
      modifies this
      ensures cacheTime == t && tm == if t == old(cacheTime) then old(tm) else CivilOf(t)
      ensures old(Valid()) ==> Valid() && pm == IsPM(CivilOf(t).hour)
    {
      var hour := GetHour(t);
      pm := hour >= 12;
    }

    method IsAMAt(t: nat) returns (am: bool)
      modifies this
      ensures cacheTime == t && tm == if t == old(cacheTime) then old(tm) else CivilOf(t)
      ensures old(Valid()) ==> Valid() && am == !IsPM(CivilOf(t).hour)
    {
      var pm := IsPMAt(t);
      am := !pm;
    }

    method GetMinute(t: nat) returns (minute: nat)
      modifies this
      ensures cacheTime == t && tm == if t == old(cacheTime) then old(tm) else CivilOf(t)
      ensures minute == tm.minute
      ensures old(Valid()) ==> Valid() && minute == CivilOf(t).minute
    {
      Refresh(t);
      minute := tm.minute;
    }

    method GetSecond(t: nat) returns (second: nat)
      modifies this
      ensures cacheTime == t && tm == if t == old(cacheTime) then old(tm) else CivilOf(t)
      ensures second == tm.second
      ensures old(Valid()) ==> Valid() && second == CivilOf(t).second
    {
      Refresh(t);
      second := tm.second;
    }

    method GetDay(t: nat) returns (day: nat)
      modifies this
      ensures cacheTime == t && tm == if t == old(cacheTime) then old(tm) else CivilOf(t)
      ensures day == tm.day
      ensures old(Valid()) ==> Valid() && day == CivilOf(t).day
    {
      Refresh(t);
      day := tm.day;
    }

    method GetWeekday(t: nat) returns (wday: nat)
      modifies this
      ensures cacheTime == t && tm == if t == old(cacheTime) then old(tm) else CivilOf(t)
      ensures wday == tm.wday
      ensures old(Valid()) ==> Valid() && wday == CivilOf(t).wday
    {
      Refresh(t);
      wday := tm.wday;
    }

    method GetMonth(t: nat) returns (month: nat)
      modifies this
      ensures cacheTime == t && tm == if t == old(cacheTime) then old(tm) else CivilOf(t)
      ensures month == tm.month
      ensures old(Valid()) ==> Valid() && month == CivilOf(t).month
    {
      Refresh(t);
      month := tm.month;
    }

    /** timeGetYear: the calendar year (tmYearToCalendar adds 1970). */
    method GetYear(t: nat) returns (year: nat)
      modifies this
      ensures cacheTime == t && tm == if t == old(cacheTime) then old(tm) else CivilOf(t)
      ensures year == tm.year + 1970
      ensures old(Valid()) ==> Valid() && year == CivilOf(t).year + 1970
    {
      Refresh(t);
      year := tm.year + 1970;
    }
  }

  /**
   * With the cache initialised as written, the first queries for the epoch
   * answer weekday 0, day 0 and month 0, while 1970-01-01 was a Thursday (5),
   * the first day of the first month.
   */
  method EpochWeekdayAsWritten() returns (wday: nat, day: nat, month: nat)
    ensures wday == 0 && day == 0 && month == 0
    ensures CivilOf(0).wday == 5 && CivilOf(0).day == 1 && CivilOf(0).month == 1
  {
    var cache := new TimeCache.AsWritten();
    wday := cache.GetWeekday(0);
    day := cache.GetDay(0);
    month := cache.GetMonth(0);
    EpochIsThursday();
  }

  /** With the cache initialised to a valid entry, the same queries answer Thursday, 1 January. */
  method EpochWeekday() returns (wday: nat, day: nat, month: nat)
    ensures wday == 5 && day == 1 && month == 1
  {
    var cache := new TimeCache();
    wday := cache.GetWeekday(0);
    day := cache.GetDay(0);
    month := cache.GetMonth(0);
    EpochIsThursday();
  }

  // ---------------------------------------------------------------------------
  // Draining whole seconds from the millisecond tick

  /**
   * The drain loop of timeNow: from clock `sys` anchored at tick `prev`, the
   * clock and anchor after every whole second up to tick `millis` is counted.
   * The tick difference is a signed 64-bit one, so a tick below the anchor
   * drains nothing.
   */
  function Drain(sys: int, prev: nat, millis: nat): (r: (int, nat))
    ensures prev <= r.1 && (r.1 - prev) % 1000 == 0
    ensures r.0 - sys == (r.1 - prev) / 1000
    ensures millis < prev ==> r == (sys, prev)
    ensures prev <= millis ==> r.1 <= millis < r.1 + 1000
  {
    if millis < prev then (sys, prev)
    else
      var k := (millis - prev) / 1000;
      (sys + k, prev + 1000 * k)
  }

  /** Draining up to `m1` and then up to `m2` counts exactly what draining up to `m2` counts. */
  lemma DrainTwice(sys: int, prev: nat, m1: nat, m2: nat)
    requires m1 <= m2
    ensures Drain(Drain(sys, prev, m1).0, Drain(sys, prev, m1).1, m2) == Drain(sys, prev, m2)
  {
    if prev <= m1 {
      var k1 := (m1 - prev) / 1000;
      var k2 := (m2 - prev) / 1000;
      var p1 := prev + 1000 * k1;
      assert (m2 - p1) / 1000 == k2 - k1 by {
        assert m2 - p1 == (m2 - prev) - 1000 * k1;
      }
    }
  }

  /** The clock after a sequence of drains at the given tick readings. */
  function DrainAll(sys: int, prev: nat, ticks: seq<nat>): (int, nat)
    decreases |ticks|
  {
    if ticks == [] then (sys, prev)
    else
      var r := Drain(sys, prev, ticks[0]);
      DrainAll(r.0, r.1, ticks[1..])
  }

  /**
   * Over non-decreasing tick readings, the clock advances by exactly the whole
   * seconds between the anchor and the last reading: no residue is dropped or
   * counted twice, however often or rarely the clock is read.
   */
  lemma {:induction false} DrainAllIsOneDrain(sys: int, prev: nat, ticks: seq<nat>)
    requires ticks != []
    requires forall i, j :: 0 <= i < j < |ticks| ==> ticks[i] <= ticks[j]
    ensures DrainAll(sys, prev, ticks) == Drain(sys, prev, ticks[|ticks| - 1])
    decreases |ticks|
  {
    var r := Drain(sys, prev, ticks[0]);
    if |ticks| > 1 {
      DrainAllIsOneDrain(r.0, r.1, ticks[1..]);
      DrainTwice(sys, prev, ticks[0], ticks[|ticks| - 1]);
    }
  }

  // ---------------------------------------------------------------------------
  // The epoch clock

  /** timeStatus_t */
  datatype Status = NotSet | Set | NeedsSync

  /** The status after a provider answered 0: NotSet is kept until a first sync. */
  function Degraded(s: Status): (r: Status)
    ensures r == NotSet <==> s == NotSet
    ensures r != Set
  {
    if s == NotSet then NotSet else NeedsSync
  }

  /**
   * The `timesync` record together with the registration of a sync provider
   * (`getTimePtr != 0`).
   */
  class EpochClock {
    var sysTime: int
    var syncInterval: int   // seconds between resyncs
    var nextSyncTime: int
    var prevMillis: nat     // tick at which `sysTime` was last advanced or set
    var status: Status
    var hasProvider: bool

    constructor ()
      ensures sysTime == 0 && syncInterval == 300 && nextSyncTime == 0 && prevMillis == 0
      ensures status == NotSet && !hasProvider
    {
      sysTime, syncInterval, nextSyncTime, prevMillis := 0, 300, 0, 0;
      status := NotSet;
      hasProvider := false;
    }

    /**
     * timeNow: drain the whole seconds elapsed up to tick `millis`; then, if a
     * resync is due and a provider is registered, take its answer `reading`,
     * setting the clock from it unless it is 0.
     */
    method Now(millis: nat, reading: int) returns (now: int)
      modifies this
      ensures syncInterval == old(syncInterval) && hasProvider == old(hasProvider)
      ensures now == sysTime
      ensures
        var d := Drain(old(sysTime), old(prevMillis), millis);
        if old(nextSyncTime) <= d.0 && hasProvider && reading != 0 then
          sysTime == reading && nextSyncTime == reading + syncInterval
          && status == Set && prevMillis == millis
        else
          sysTime == d.0 && prevMillis == d.1 && nextSyncTime == old(nextSyncTime)
          && status == if old(nextSyncTime) <= d.0 && hasProvider then Degraded(old(status)) else old(status)
      ensures old(status) != NotSet ==> status != NotSet
    {
      while millis - prevMillis >= 1000
        invariant old(prevMillis) <= prevMillis && (prevMillis - old(prevMillis)) % 1000 == 0
        invariant sysTime == old(sysTime) + (prevMillis - old(prevMillis)) / 1000
        invariant prevMillis == old(prevMillis) || prevMillis <= millis
        invariant syncInterval == old(syncInterval) && hasProvider == old(hasProvider)
        invariant nextSyncTime == old(nextSyncTime) && status == old(status)
        decreases millis - prevMillis
      {
        sysTime := sysTime + 1;
        prevMillis := prevMillis + 1000;
      }
      assert (sysTime, prevMillis) == Drain(old(sysTime), old(prevMillis), millis) by {
        if old(prevMillis) <= millis {
          var k := (prevMillis - old(prevMillis)) / 1000;
          assert millis - old(prevMillis) == 1000 * k + (millis - prevMillis);
        }
      }
      if nextSyncTime <= sysTime {
        if hasProvider {
          var t := reading;
          if t != 0 {
            SetTime(t, millis);
          } else {
            status := if status == NotSet then NotSet else NeedsSync;
          }
        }
      }
      now := sysTime;
    }

    /** timeSetTime: set the clock to `t` at tick `millis` and schedule the next resync. */
    method SetTime(t: int, millis: nat)
      modifies this
      ensures sysTime == t && nextSyncTime == t + syncInterval && status == Set && prevMillis == millis
      ensures syncInterval == old(syncInterval) && hasProvider == old(hasProvider)
    {
      sysTime := t;
      nextSyncTime := t + syncInterval;
      status := Set;
      prevMillis := millis;  // the drain starts over from the tick of the new time
    }

    /** timeAdjust: slew the clock; the sync schedule and status stay as they are. */
    method Adjust(adjustment: Int32)
      modifies this
      ensures sysTime == old(sysTime) + adjustment
      ensures syncInterval == old(syncInterval) && nextSyncTime == old(nextSyncTime)
      ensures prevMillis == old(prevMillis) && status == old(status) && hasProvider == old(hasProvider)
    {
      sysTime := sysTime + adjustment;
    }

    /** timeStatus */
    method GetStatus() returns (s: Status)
      ensures s == status
    {
      s := status;
    }

    /**
     * timeSetSyncProvider: register (or, with `present` false, remove) the
     * provider and resync at once; `millis` and `reading` are what the
     * immediate call of timeNow sees.
     */
    method SetSyncProvider(present: bool, millis: nat, reading: int)
      modifies this
      ensures hasProvider == present && syncInterval == old(syncInterval)
      ensures
        var d := Drain(old(sysTime), old(prevMillis), millis);
        if present && reading != 0 then
          sysTime == reading && nextSyncTime == reading + syncInterval
          && status == Set && prevMillis == millis
        else
          sysTime == d.0 && prevMillis == d.1 && nextSyncTime == old(sysTime)
          && status == if present then Degraded(old(status)) else old(status)
      ensures old(status) != NotSet ==> status != NotSet
    {
      hasProvider := present;
      nextSyncTime := sysTime;
      var _ := Now(millis, reading);  // the resync is now due, so Now asks the provider
    }

    /** timeSetSyncInterval: affects the resyncs scheduled from now on, not a pending one. */
    method SetSyncInterval(interval: int)
      modifies this
      ensures syncInterval == interval
      ensures sysTime == old(sysTime) && nextSyncTime == old(nextSyncTime) && prevMillis == old(prevMillis)
      ensures status == old(status) && hasProvider == old(hasProvider)
    {
      syncInterval := interval;
    }
  }
}
