# Nixie clock time-keeping core in Dafny

This project models the time-keeping firmware of an AVR nixie-tube clock and proves properties of the model. It has six parts.

- **Calendar** (`Calendar.dfy`) converts both ways between seconds since 1970-01-01 and the broken-down fields Second, Minute, Hour, Wday, Day, Month and Year.
  - Year is an offset from 1970.
  - The leap-year rule is the proleptic Gregorian one.
  - `BreakTime` and `MakeTime` keep the loops of `timeBreak` and `timeMake`. They are proved equal to the reference functions `CivilOf` and `InstantOf`.
  - Those two functions are proved to be inverses of each other.
- **Clock** (`Clock.dfy`) holds two classes.
  - `TimeCache` models the single-entry cache of broken-down time behind the `timeGet*` getters.
  - `EpochClock` models the `timesync` record. It drains whole seconds from the millisecond tick, resynchronises from a provider when due, and moves through NotSet, Set and NeedsSync.
- **Timezone** (`Timezone.dfy`) resolves "Nth or last weekday of a month at hour H" rules to instants. It caches the DST and standard-time starts in UTC and in local time, decides DST in both hemispheres' orderings, and converts UTC ⇄ local.
- **SyncService** (`SyncService.dfy`) models a fixed-cadence poll of the high-validity time provider. It compares ticks with modular uint32 subtraction.
- **Display** (`Display.dfy`) models the nixie frame serialiser. Six digits are turned into one-hot 10-bit codes, and four separator dots are added. All of this is shifted out most significant bit first as exactly eight bytes.
- **Ds1307** (`Ds1307.dfy`) models the DS1307 real-time-clock chip as eight byte registers. It covers the BCD codec with its control-bit masks, and the read-modify-write setters.

Hardware reads become parameters:
- the millisecond tick;
- what the time provider answers;
- the register contents.

Hardware writes become state:
- bytes sent over SPI are appended to `Display.sent`;
- register writes update `Chip.regs`;
- EEPROM writes update `storedDst`/`storedStd`.

Three behaviours of the code shape the model:
- **The timezone cache is keyed by a year it derives.** There is no stored year: the code compares the year of the query with the year of the cached DST start, the UTC start for UTC queries and the local start for local queries. `Timezone.CachedYear` states when a freshly computed cache is current for its year.
- **The tm cache starts zeroed.** Its cached instant and fields start at zero, so instant 0 is taken as already cached (Finding 1).
- **The sync interval is multiplied in 16 bits** before it is stored in 32 bits (Finding 3).

## Model

| member | source | states |
|---|---|---|
| Calendar.MonthLength | firmware/time.c:120-121 | every month of every year has 28 to 31 days |
| Calendar.Weekday | firmware/time.c:140 | weekday numbers are 1..7 (Sunday = 1), and day numbers that are multiples of seven, the epoch among them, are Thursdays (5) |
| Calendar.YearScan | firmware/time.c:142-152 | the year walk ends in a year that contains the day: the day-of-year is below that year's length, and the days before the year plus the day-of-year equal the day number |
| Calendar.MonthScan | firmware/time.c:153-184 | the month walk ends in a month of the year that contains the day: the day-of-month is below the month's length, and the days before the month plus the day-of-month equal the day-of-year |
| Calendar.YearLengthIsMonthSum | firmware/time.c:120-121 | the twelve month lengths of a year add up to its length, 365 or 366 |
| Calendar.DaysBeforeYearGrows | firmware/time.c:142-152 | a later year starts no earlier than the end of an earlier one |
| Calendar.LeapsStep | firmware/time.c:120 | the count of years up to n that LEAP_YEAR accepts grows by one exactly when n is divisible by 4 and either not by 100 or also by 400 |
| Calendar.DaysBeforeYearClosedForm | firmware/time.c:197-201 | the days before year 1970+y are 365·y plus the number of leap years from 1970 up to 1969+y |
| Calendar.YearOfDayIsUnique | firmware/time.c:142-152 | a day number has only one (year, day-of-year) decomposition |
| Calendar.MonthOfDayIsUnique | firmware/time.c:153-184 | a day-of-year has only one (month, day-of-month) decomposition |
| Calendar.CivilOfInRange | firmware/time.c:133-184 | a broken-down time has second < 60, minute < 60, hour < 24, weekday 1..7, month 1..12 and a day within that month's length; February 29 occurs only in leap years |
| Calendar.EpochIsThursday | firmware/time.c:140 | instant 0 breaks down to 1970-01-01 00:00:00, a Thursday |
| Calendar.MakeAfterBreak | firmware/time.c:124-223 | making an instant from the broken-down fields of t gives back t |
| Calendar.CivilYearBounds | firmware/time.c:142-152 | every instant between the first and last second of a year breaks down into that year |
| Calendar.BreakAfterMake | firmware/time.c:124-223 | breaking down the instant made from in-range fields gives those fields back, with the weekday recomputed from the date |
| Calendar.YearOfDay | firmware/time.c:142-152 | the year loop and its back-off step find the year and day-of-year of a day number |
| Calendar.MonthOfDay | firmware/time.c:153-184 | the month loop finds the month (0-based) and day-of-month of a day-of-year |
| Calendar.BreakTime | firmware/time.c:124-185 | timeBreak yields exactly the broken-down fields of the instant |
| Calendar.MakeTime | firmware/time.c:187-223 | timeMake yields exactly the instant of the fields |
| Clock.HourFormat12 | firmware/time.c:58-67 | the 12-hour face is 1..12 and agrees with the hour modulo 12 |
| Clock.HourFromFormat12 | firmware/time.c:58-77 | the hour of the day is recovered from the 12-hour face and the PM flag |
| Clock.TimeCache.AsWritten | firmware/time.c:35-50 | the zero-initialised cache claims instant 0 but does not hold its fields |
| Clock.TimeCache.constructor | firmware/time.c:35-50 | a cache primed with the fields of instant 0 is consistent |
| Clock.TimeCache.Refresh | firmware/time.c:42-50 | the cache is recomputed only when the instant differs from the cached one, and a consistent cache stays consistent |
| Clock.TimeCache.GetHour | firmware/time.c:52-56 | the hour returned is the cached one, and with a consistent cache it is the hour of t |
| Clock.TimeCache.GetHourFormat12 | firmware/time.c:58-67 | the 12-hour face of the cached hour, which with a consistent cache is the face of the hour of t, 1..12 |
| Clock.TimeCache.IsPMAt | firmware/time.c:74-77 | with a consistent cache, PM exactly when the hour of t is 12 or later |
| Clock.TimeCache.IsAMAt | firmware/time.c:69-72 | with a consistent cache, the negation of PM |
| Clock.TimeCache.GetMinute | firmware/time.c:79-83 | the cached minute, which with a consistent cache is the minute of t |
| Clock.TimeCache.GetSecond | firmware/time.c:85-89 | the cached second, which with a consistent cache is the second of t |
| Clock.TimeCache.GetDay | firmware/time.c:91-95 | the cached day, which with a consistent cache is the day of the month of t |
| Clock.TimeCache.GetWeekday | firmware/time.c:97-101 | the weekday returned is the cached one, and with a consistent cache it is the weekday of t |
| Clock.TimeCache.GetMonth | firmware/time.c:103-107 | the cached month, which with a consistent cache is the month of t |
| Clock.TimeCache.GetYear | firmware/time.c:109-113 | the cached year offset plus 1970, which with a consistent cache is the calendar year of t |
| Clock.EpochWeekdayAsWritten | firmware/time.c:35-50 | asking the zero-initialised cache for the weekday, day and month of instant 0 answers 0, 0 and 0, although that day is Thursday (5), 1 January |
| Clock.EpochWeekday | firmware/time.c:97-101 | with the cache primed, instant 0 is Thursday (5), day 1 of month 1 |
| Clock.Drain | firmware/time.c:244-250 | draining whole seconds advances the tick mark by a multiple of 1000 ms, adds exactly that many seconds to the clock, and leaves less than 1000 ms undrained; a tick behind the mark drains nothing |
| Clock.DrainTwice | firmware/time.c:244-250 | draining up to m1 and then up to m2 is the same as draining up to m2 at once |
| Clock.DrainAllIsOneDrain | firmware/time.c:242-250 | draining at each of a non-decreasing series of ticks ends where one drain at the last tick does |
| Clock.Degraded | firmware/time.c:261 | a failed resync leaves NotSet as NotSet and never yields Set |
| Clock.EpochClock.constructor | firmware/time.c:228-237 | the record starts at time 0, a 300-second interval, status NotSet and no provider |
| Clock.EpochClock.Now | firmware/time.c:242-265 | drains the elapsed whole seconds; when a resync is due, a provider answering t ≠ 0 sets the time and a zero answer degrades the status; the result is the clock's time; status never returns to NotSet |
| Clock.EpochClock.SetTime | firmware/time.c:267-273 | sets the time, schedules the next sync one interval later, marks the status Set and restarts the tick mark |
| Clock.EpochClock.Adjust | firmware/time.c:293-296 | adds the signed 32-bit adjustment to the time and changes nothing else |
| Clock.EpochClock.GetStatus | firmware/time.c:298-301 | returns the status |
| Clock.EpochClock.SetSyncProvider | firmware/time.c:303-308 | installs the provider, makes a resync due now and performs timeNow |
| Clock.EpochClock.SetSyncInterval | firmware/time.c:310-313 | changes only the interval; a pending next-sync time stays as it was |
| Timezone.RuleAnchor | firmware/timezone.c:93-111 | the anchor of a rule is an in-range first day of a month |
| Timezone.AnchorWeekday | firmware/timezone.c:113-114 | the weekday read back from the anchor instant is the weekday of its date |
| Timezone.WeekdayAfter | firmware/time.c:140 | the weekday k days later is the weekday shifted by k modulo 7 |
| Timezone.RuleToTimeNthWeek | firmware/timezone.c:106-114 | a week 1..4 rule resolves to an in-range date in the rule's month whose weekday is the rule's, at the rule's hour |
| Timezone.RuleToTimeLastWeek | firmware/timezone.c:96-120 | a "last" rule resolves to an in-range date of the rule's month and year, with December not spilling into January, whose weekday is the rule's |
| Timezone.RuleToTimeFields | firmware/timezone.c:90-122 | the resolved instant falls on the rule's weekday at hour:00:00 in the rule's month and year; week n gives a day in 7(n−1)+1..7n, and "last" gives one of the month's final seven days |
| Timezone.GermanDst2024 | firmware/timezone.c:6 | the German summer-time rule gives 2024-03-31 02:00 local, instant 1711850400 |
| Timezone.GermanStd2024 | firmware/timezone.c:7 | the German winter-time rule gives 2024-10-27 03:00 local, instant 1729998000 |
| Timezone.RuleToTimeHourShift | firmware/timezone.c:106 | changing a rule's hour shifts the resolved instant by exactly that many hours |
| Timezone.InDstSwapped | firmware/timezone.c:63-70 | the southern-hemisphere test is the complement of the northern one with the starts swapped |
| Timezone.TransitionsInYear | firmware/timezone.c:48-54 | both local start times of a year lie in that year |
| Timezone.UtcStartInYear | firmware/timezone.c:52 | for a DST start in February to November, the UTC start lies in the same year |
| Timezone.ToUtcAfterToLocal | firmware/timezone.c:124-155 | in the northern ordering, converting UTC to local and back gives the instant back, except in the repeated hour after the fall-back |
| Timezone.ToLocalAfterToUtc | firmware/timezone.c:124-155 | in the northern ordering, converting local to UTC and back gives the local time back, except in the skipped hour of the spring-forward |
| Timezone.FallBackRepeats | firmware/timezone.c:124-139 | in the hour after the fall-back, two UTC instants an offset apart map to the same local time |
| Timezone.GermanDstWindow2024 | firmware/timezone.c:56-71 | in 2024, summer time holds exactly on the UTC interval [1711846800, 1729990800) |
| Timezone.CachedYear | firmware/timezone.c:56-88 | the local summer-time start computed for a year lies in that year, and so does the UTC start when it falls in February to November; a query of that year then finds the cache current |
| Timezone.TimezoneEngine.constructor | firmware/timezone.c:17-22 | the rules are read from the store and the cached instants start at zero |
| Timezone.TimezoneEngine.CalculateStartTime | firmware/timezone.c:48-54 | the UTC starts are the local starts minus the other rule's offset: DstStartUtc = DstStartLocal − StdOffset·60 and StdStartUtc = StdStartLocal − DstOffset·60 |
| Timezone.TimezoneEngine.SetDstAsWritten | firmware/timezone.c:24-28 | stores the summer-time rule and persists it, leaving the cached starts as they were |
| Timezone.TimezoneEngine.SetStdAsWritten | firmware/timezone.c:30-34 | stores the winter-time rule and persists it, leaving the cached starts as they were |
| Timezone.TimezoneEngine.SetDst | firmware/timezone.c:24-28 | stores and persists the summer-time rule, leaves the other rule alone, and recomputes the cached starts for the cached year |
| Timezone.TimezoneEngine.SetStd | firmware/timezone.c:30-34 | stores and persists the winter-time rule, leaves the other rule alone, and recomputes the cached starts for the cached year |
| Timezone.TimezoneEngine.GetDst | firmware/timezone.c:36-40 | returns the persisted summer-time rule (the one the last SetDst stored) and reloads it |
| Timezone.TimezoneEngine.GetStd | firmware/timezone.c:42-46 | returns the persisted winter-time rule (the one the last SetStd stored) and reloads it |
| Timezone.TimezoneEngine.UtcIsDstAt | firmware/timezone.c:56-71 | recomputes the cache only when the year differs from that of the cached UTC start, then answers the half-open interval test (or its complement); with a current cache the answer is the rule-based one |
| Timezone.TimezoneEngine.LocalIsDstAt | firmware/timezone.c:73-88 | the same for local instants against the cached local starts |
| Timezone.TimezoneEngine.TimeToLocal | firmware/timezone.c:124-139 | adds the offset of the rule in force at the UTC instant, and equals the pure conversion with a current cache |
| Timezone.TimezoneEngine.TimeToUtc | firmware/timezone.c:141-155 | subtracts the offset of the rule in force at the local instant, and equals the pure conversion with a current cache |
| Timezone.StaleCacheAfterSetDst | firmware/timezone.c:24-28 | after moving the summer-time hour to 03:00 within 2024, the engine as written still reports DST at 01:00 UTC on March 31; the corrected engine does not |
| SyncService.Elapsed | firmware/syncservice.c:33 | uint32 subtraction of ticks: the plain difference, or the difference plus 2^32 across a wrap |
| SyncService.ElapsedAcrossWrap | firmware/syncservice.c:33 | an elapsed time under 2^32 ms is recovered even when the counter wraps in between |
| SyncService.IntervalMillisAsWritten | firmware/syncservice.c:68-71 | the stored interval is a 16-bit product, below 65536 ms |
| SyncService.IntervalWrapsAbove65 | firmware/syncservice.c:70 | the stored interval is the intended one exactly for s ≤ 65; 66 s is stored as 464 ms |
| SyncService.SyncService.constructor | firmware/syncservice.c:18-22 | zero interval, zero last attempt, no receiver or providers, nothing pushed |
| SyncService.SyncService.Process | firmware/syncservice.c:30-66 | not due ⇔ nothing changes; a due attempt always records the tick read at its end, after the provider and receiver calls; it pushes t to the receiver and sets the clock exactly when receiver and high provider are present and t ≠ 0; the low provider is never asked |
| SyncService.SyncService.SetIntervalAsWritten | firmware/syncservice.c:68-71 | stores the 16-bit product and changes nothing else |
| SyncService.SyncService.SetInterval | firmware/syncservice.c:68-71 | stores s·1000 milliseconds and changes nothing else |
| SyncService.SyncService.SetSyncReceiver | firmware/syncservice.c:73-76 | installs or removes the receiver only |
| SyncService.SyncService.SetSyncProviderHighValidity | firmware/syncservice.c:78-81 | installs or removes the high-validity provider only |
| SyncService.SyncService.SetSyncProviderLowValidity | firmware/syncservice.c:83-85 | installs or removes the low-validity provider only |
| SyncService.ShortIntervalAfterSet66 | firmware/syncservice.c:33-34 | with a 66-second interval, the service as written polls again after 464 ms; the corrected one does not |
| Display.MappingIsOneHot | firmware/display.c:94 | each digit code has exactly one bit set among the low ten, at position (d+9) mod 10, and nothing above |
| Display.MappingIsInjective | firmware/display.c:94 | distinct digits have distinct codes |
| Display.DigitOfCodeInverts | firmware/display.c:94 | the digit is recovered from its code |
| Display.StreamUpTo | firmware/display.c:157-219 | after n digits the stream holds 10 bits per digit plus two dot bits each before digits 2 and 4 |
| Display.MaskValue | firmware/display.c:157-159 | the output mask walks 0x80 down to 0x01 as bits are added |
| Display.Frame | firmware/display.c:157-219 | a frame is exactly eight bytes |
| Display.UnpackPack | firmware/display.c:202-218 | packing bits most significant first into bytes loses nothing |
| Display.StreamLayout | firmware/display.c:161-209 | the 64-bit stream is digits 0 and 1, dotBR, dotUR, digits 2 and 3, dotBL, dotUL, digits 4 and 5, each digit sent from bit 9 down to bit 0 |
| Display.StreamSlices | firmware/display.c:161-209 | digit codes occupy bits 0-9, 10-19, 22-31, 32-41, 44-53 and 54-63 of the stream, and the dots bits 20, 21, 42 and 43 |
| Display.FrameRoundTrip | firmware/display.c:149-225 | the six digits and four dots are recovered from the eight bytes |
| Display.ByteOfSnoc | firmware/display.c:204-210 | setting the masked bit for a 1 and shifting the mask appends one bit to the byte being built |
| Display.ShiftLastBit | firmware/display.c:204-217 | the eighth bit completes a byte, which is sent, and the counter, byte and mask reset |
| Display.ShiftOutIsCodeBits | firmware/display.c:202-209 | shifting the code left ten times and testing bit 9 sends the code's bits 9 down to 0 |
| Display.DigitsSpellTime | firmware/display.c:138-143 | the six digits are hour/10, hour%10, minute/10, minute%10, second/10, second%10, each 0..9 |
| Display.FrameEmitted | firmware/display.c:157-219 | once the whole stream has been shifted in, the bytes sent are exactly the frame |
| Display.Display.constructor | firmware/display.c:98-108 | the zero-initialised display shows 00:00:00 with all dots off and has sent nothing |
| Display.Display.Init | firmware/display.c:123-126 | all four dots are switched on and nothing else changes |
| Display.Display.Show | firmware/display.c:149-225 | displayShow sends exactly the frame of the current digits and dots, and changes nothing else |
| Display.Display.ShowDigit | firmware/display.c:161-219 | one pass of the outer loop extends the stream by the dots due before the digit and by the digit's ten bits |
| Display.Display.ShiftOutDots | firmware/display.c:165-196 | the two dot bits are shifted in, in order |
| Display.Display.ShiftOutCode | firmware/display.c:202-218 | the ten code bits are shifted in from bit 9 down |
| Display.Display.TopBit | firmware/display.c:204-208 | testing bit 9 and shifting left yields the next bit of the code and the rest of it |
| Display.Display.ShiftInBit | firmware/display.c:204-217 | one bit is added to the stream, and a full byte is sent |
| Display.Display.ShowTime | firmware/display.c:131-146 | the digits become those of the broken-down time, and the frame of the new panel is sent |
| Ds1307.Bcd | firmware/ds1307.c:54-57 | for v < 100 the high nibble is v/10 and the low nibble v%10 |
| Ds1307.FromBcd | firmware/ds1307.c:116-123 | a valid BCD byte decodes to a value below 100 |
| Ds1307.BcdRoundTrip | firmware/ds1307.c:54-57 | decoding the encoding of v < 100 gives v |
| Ds1307.FromBcdRoundTrip | firmware/ds1307.c:116-123 | encoding the decoding of a valid BCD byte gives the byte |
| Ds1307.EncodeSeconds | firmware/ds1307.c:175-181 | the written seconds byte has the clock-halt bit clear |
| Ds1307.DecodeSeconds | firmware/ds1307.c:104-114 | the seconds decode ignores the clock-halt bit, so it is at most 85 |
| Ds1307.SecondsRoundTrip | firmware/ds1307.c:175-181 | seconds written are read back |
| Ds1307.SecondsIgnoreHalt | firmware/ds1307.c:104-114 | setting or clearing the clock-halt bit does not change the seconds read |
| Ds1307.EncodeMinutes | firmware/ds1307.c:183-189 | the written minutes byte has its top bit clear |
| Ds1307.DecodeMinutes | firmware/ds1307.c:116-123 | a valid BCD minutes byte decodes below 100 |
| Ds1307.MinutesRoundTrip | firmware/ds1307.c:183-189 | minutes written are read back |
| Ds1307.DecodeHours | firmware/ds1307.c:125-142 | the hours read are at most 25 in 12-hour mode and at most 45 in 24-hour mode |
| Ds1307.HoursIgnoreControl | firmware/ds1307.c:125-142 | the hours read ignore bit 7 and the PM bit in 12-hour mode, and bit 7 in 24-hour mode |
| Ds1307.EncodeHoursAsWritten | firmware/ds1307.c:191-209 | the mode bit is kept; in 12-hour mode PM is set exactly for hours above 12 |
| Ds1307.Format12 | firmware/time.c:58-67 | the 12-hour face as a byte, 1..12 |
| Ds1307.EncodeHours | firmware/ds1307.c:191-209 | the mode bit is kept; in 12-hour mode PM is set exactly for hours 12 and later |
| Ds1307.Hours24RoundTrip | firmware/ds1307.c:203-207 | in 24-hour mode the setter as written is correct and the hour is read back |
| Ds1307.Hours12RoundTrip | firmware/ds1307.c:196-202 | in 12-hour mode the corrected encoding reads back as the 12-hour face, and with the PM bit as the hour of the day |
| Ds1307.HoursAsWrittenLosesHour | firmware/ds1307.c:196-202 | in 12-hour mode, 21 as written reads back as 1 (hour of day 13), and 12 reads back as midnight |
| Ds1307.DecodeDate | firmware/ds1307.c:144-153 | the date read is at most 45 |
| Ds1307.DateIgnoresTopBits | firmware/ds1307.c:144-153 | the date read ignores the top two bits |
| Ds1307.DateRoundTrip | firmware/ds1307.c:211-215 | dates written are read back |
| Ds1307.DecodeMonth | firmware/ds1307.c:155-164 | the month read is at most 25 |
| Ds1307.MonthIgnoresTopBits | firmware/ds1307.c:155-164 | the month read ignores the top three bits |
| Ds1307.MonthRoundTrip | firmware/ds1307.c:217-221 | months written are read back |
| Ds1307.DecodeYear | firmware/ds1307.c:166-173 | a valid BCD year decodes below 100 |
| Ds1307.YearRoundTrip | firmware/ds1307.c:223-227 | years 0..99 written are read back |
| Ds1307.Chip.constructor | firmware/ds1307.c:24-32 | the chip holds the eight registers at addresses 0..7 with the given contents |
| Ds1307.Chip.WriteRegister | firmware/ds1307.c:230-236 | writing a register changes that register only |
| Ds1307.Chip.Init | firmware/ds1307.c:59-65 | the oscillator runs, 24-hour mode is selected, and the square wave is enabled at 1 Hz; other bits and registers are kept |
| Ds1307.Chip.EnableOscillator | firmware/ds1307.c:67-73 | only bit 7 of register 0 changes, to clear, and the seconds read are kept |
| Ds1307.Chip.DisableOscillator | firmware/ds1307.c:75-81 | only bit 7 of register 0 changes, to set, and the seconds read are kept |
| Ds1307.Chip.SetHourMode | firmware/ds1307.c:83-92 | only bit 6 of register 2 changes, set exactly for 12-hour mode |
| Ds1307.Chip.SetSquarewaveOutput | firmware/ds1307.c:94-101 | the control register becomes rate \| enable |
| Ds1307.Chip.SetSeconds | firmware/ds1307.c:175-181 | register 0 gets the BCD seconds with clock-halt clear, and they read back |
| Ds1307.Chip.SetMinutes | firmware/ds1307.c:183-189 | register 1 gets the BCD minutes, and they read back |
| Ds1307.Chip.SetHoursAsWritten | firmware/ds1307.c:191-209 | register 2 gets the hour encoded as written, keeping the mode |
| Ds1307.Chip.SetHours | firmware/ds1307.c:191-209 | register 2 keeps its mode and reads back as the hour of the day (12-hour face plus PM in 12-hour mode) |
| Ds1307.Chip.SetDate | firmware/ds1307.c:211-215 | register 4 gets the BCD date, and it reads back |
| Ds1307.Chip.SetMonth | firmware/ds1307.c:217-221 | register 5 gets the BCD month, and it reads back |
| Ds1307.Chip.SetYear | firmware/ds1307.c:223-227 | register 6 gets the BCD year, and it reads back |
| Ds1307.SetHoursIn12HourMode | firmware/ds1307.c:191-209 | in 12-hour mode, 21:00 set as written reads back as hour 13, while the corrected setter gives 21 |

## Left out

- Hardware side effects are not modelled: the I2C transfer (ds1307.c:230-244), SPI, the GPIO strobes in display.c, the status LEDs in time.c and syncservice.c, and the high-voltage enable (display.c:227-240).
- EEPROM persistence is reduced to the `storedDst`/`storedStd` fields.
- systemtime.c, timer32u4.c, gps.c, rtc.c, cmdlineinterface.c and main.c are not part of this model.
  - The millisecond tick is a parameter.
  - Providers are modelled by what they answer.
  - The interrupt that advances the tick, and any concurrency with it, are not modelled.
- Instants are unbounded integers. The 32-bit `time_t` overflow in 2038 and the `uint8_t` Year offset past 2225 are not modelled. Neither is the 16-bit `(unsigned)` cast in the year loop, which matters only past 2149, beyond the range of `time_t`.
- Calendar.BreakTime: takes non-negative instants only. For instants before 1970, `Timezone.YearOfInstant` models only the year `timeGetYear` reports (1970).
- Clock.EpochClock.Now: reads the tick once per call, where the source rereads it in every pass of the drain loop and again in `timeSetTime`.
- Clock.EpochClock.Now: ticks are unbounded naturals. The source's signed 64-bit difference is not modular, so after the 32-bit counter wraps its drain loop stops; the model does not capture this.
- Clock.TimeCache: the refresh that `timeGetYear` performs on the shared broken-down cache when called from timezone.c is not modelled there. The Timezone module uses the pure year function instead.
- Timezone.ToUtcAfterToLocal: proved only for the northern-hemisphere ordering (summer time starts before winter time in UTC), with offsets that do not move the instant into another year, and outside the repeated hour.
- Timezone.ToLocalAfterToUtc: proved only for the northern-hemisphere ordering, with offsets that do not move the instant into another year, and outside the skipped hour.
- Timezone.TimezoneEngine.constructor: models the zeroed cache of the source. The first query of a year other than 1970 recomputes it.
- Display.Display.Show: sends its eight bytes to `sent` in one step at the end of the call, not one byte at a time.
- Display.Display.Show: the loop body is factored into the static methods ShowDigit, ShiftOutDots, ShiftOutCode, TopBit and ShiftInBit, whose statements follow the source line by line.
- Calendar.BreakTime: the year and month loops are factored into `YearOfDay` and `MonthOfDay`.
- The DS1307 getters (ds1307.c:104-173) are modelled as the `Decode*` functions on a register byte, not as methods. The day-of-week register (3) has no accessor in the source and none in the model.
- Ds1307.Chip.SetHours: the corrected setter requires hours < 24, because the 12-hour face is undefined otherwise. The as-written setter accepts any byte.
- Ds1307.SecondsRoundTrip: stated for values below 80, the range whose BCD tens digit survives the clock-halt mask. The same range applies to MinutesRoundTrip; DateRoundTrip holds below 40 and MonthRoundTrip below 20.
- SyncService.SyncService.Process: the three tick reads are parameters and may be any values. The model does not relate them to the time the provider and receiver calls take.
- SyncService.SyncService.Process: the clock update goes through `Clock.EpochClock.SetTime`, whose tick is a natural, not the uint32 tick.

## Findings

| source | as written | input that shows it | evidently intended | confidence | as-written member | corrected member |
|---|---|---|---|---|---|---|
| firmware/time.c:35-50 | the static cache time and broken-down fields start at zero, so instant 0 is taken as already cached | `timeGetWeekday(0)` as the first query answers 0 (and Day 0, Month 0) instead of Thursday (5), 1 January | the cache holds the fields of its cached instant from the start | not executed | Clock.EpochWeekdayAsWritten | Clock.EpochWeekday |
| firmware/ds1307.c:191-209 | in 12-hour mode the 24-hour BCD value is written with the mode bit, the PM bit is set only for hours above 12, and the read masks the tens bit 0x20 | `ds1307SetHours(21)` in 12-hour mode reads back as 1 PM (13:00); `ds1307SetHours(12)` reads back as 12 AM (midnight) | write the 12-hour face 1..12 with PM for hours 12..23 | not executed | Ds1307.HoursAsWrittenLosesHour | Ds1307.Hours12RoundTrip |
| firmware/syncservice.c:68-71 | `interval * 1000` is computed in 16-bit unsigned arithmetic on the AVR before it is stored in 32 bits | `timeSyncServiceSetInterval(66)` stores 464 ms instead of 66000 ms | store s·1000 ms for every 16-bit s | not executed | SyncService.IntervalWrapsAbove65 | SyncService.SyncService.SetInterval |
| firmware/timezone.c:24-34 | setting a rule does not recompute the cached transition instants, which are only refreshed when the queried year changes | after moving the 2024 summer-time hour from 02:00 to 03:00, `timezoneUtcIsDst(1711846800)` (2024-03-31 01:00 UTC) still answers true | recompute the transitions for the cached year when a rule changes | not executed | Timezone.StaleCacheAfterSetDst | Timezone.TimezoneEngine.SetDst |
