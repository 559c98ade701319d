/**
 * The timezone rule engine: a daylight-saving (DST) rule and a standard-time
 * (STD) rule, each "the Nth (or last) weekday of a month at an hour", resolved
 * to concrete instants per year and used to convert between UTC and local time.
 *
 * The pure part (`RuleToTime`, `StartTimes`, `InDst` and the conversions for a
 * given pair of rules) is the reference definition; `TimezoneEngine` is the module
 * state of the source: the two rules, their persistent copies and the cached
 * transition instants of one year.
 */
module Timezone {
  import opened Calendar

  /** dow_t: Sunday = 1 ... Saturday = 7 */
  const Sun: nat := 1
  /** week_t: 0 stands for the last occurrence of the weekday in the month */
  const Last: nat := 0
  const Mar: nat := 3
  const Oct: nat := 10

  /** timeChangeRule_t: offset from UTC in minutes and when the rule takes effect, in local time. */
  datatype Rule = Rule(abbrev: string, offset: int, hour: nat, dow: nat, week: nat, month: nat)

  /** The ranges of the fields of a rule (the enums dow_t, week_t, month_t and an int16 offset). */
  predicate ValidRule(r: Rule)
  {
    && |r.abbrev| <= 6
    && -0x8000 <= r.offset < 0x8000
    && r.hour < 24
    && 1 <= r.dow <= 7
    && r.week <= 4
    && 1 <= r.month <= 12
  }

  /** The rules stored in persistent memory by default (Germany). */
  const GermanDst := Rule("MESZ", 120, 2, Sun, Last, Mar)
  const GermanStd := Rule("MEZ", 60, 3, Sun, Last, Oct)

  /** The calendar year of an instant, as timeGetYear gives it. */
  function YearOf(t: nat): (y: nat)
    ensures y >= 1970
  {
    CivilOf(t).year + 1970
  }

  /**
   * The calendar year timeGetYear gives a signed instant: instants before the
   * epoch break down into year 0 (1970), since the year loop stops at once.
   */
  function YearOfInstant(t: int): (y: nat)
    ensures y >= 1970
  {
    if t < 0 then 1970 else YearOf(t)
  }

  /**
   * The anchor of timezoneRuleToTime: the 1st of the rule's month at the rule's
   * hour, or for the last week the 1st of the month after (January of the next
   * year after December).
   */
  function RuleAnchor(rule: Rule, year: nat): (el: Elements)
    requires ValidRule(rule) && year >= 1970
    ensures InRange(el) && el.day == 1
  {
    var (month, y) :=
      if rule.week == 0 then (if rule.month + 1 > 12 then (1, year + 1) else (rule.month + 1, year))
      else (rule.month, year);
    Elements(0, 0, rule.hour, 0, 1, month, y - 1970)
  }

  /**
   * timezoneRuleToTime: the local instant at which `rule` takes effect in
   * `year`. The anchor is moved forward to the rule's weekday and week; for the
   * last week it is then moved back by seven days. The weekday of the anchor
   * is the one timeGetWeekday gives (lemma AnchorWeekday).
   */
  function RuleToTime(rule: Rule, year: nat): int
    requires ValidRule(rule) && year >= 1970
  {
    var first := RuleAnchor(rule, year);
    var week := if rule.week == 0 then 1 else rule.week;
    var t := InstantOf(first);
    var t' := t + (7 * (week - 1) + (rule.dow - Weekday(EpochDay(first)) + 7) % 7) * SECS_PER_DAY;
    if rule.week == 0 then t' - 7 * SECS_PER_DAY else t'
  }

  /** The weekday RuleToTime starts from is the weekday of the anchor instant. */
  lemma AnchorWeekday(rule: Rule, year: nat)
    requires ValidRule(rule) && year >= 1970
    ensures CivilOf(InstantOf(RuleAnchor(rule, year))).wday == Weekday(EpochDay(RuleAnchor(rule, year)))
  {
    WeekdayOfInstant(RuleAnchor(rule, year));
  }

  /** Adding whole weeks does not change a remainder modulo 7. */
  lemma {:induction false} AddWeeks(a: nat, q: nat)
    ensures (a + 7 * q) % 7 == a % 7
    decreases q
  {
    if q > 0 {
      AddWeeks(a, q - 1);
      assert a + 7 * q == (a + 7 * (q - 1)) + 7;
    }
  }

  /** `k` days after day `e`, the weekday has advanced by `k` modulo 7. */
  lemma WeekdayAfter(e: nat, k: nat)
    ensures Weekday(e + k) == (Weekday(e) - 1 + k) % 7 + 1
  {
    var r := (e + 4) % 7;
    assert e + k + 4 == (r + k) + 7 * ((e + 4) / 7);
    AddWeeks(r + k, (e + 4) / 7);
  }

  /** Moving forward from weekday `w0` by (dow - w0 + 7) % 7 days plus whole weeks lands on `dow`. */
  lemma RollToWeekday(w0: nat, dow: nat, weeks: nat)
    requires 1 <= w0 <= 7 && 1 <= dow <= 7
    ensures (w0 - 1 + 7 * weeks + (dow - w0 + 7) % 7) % 7 + 1 == dow
  {
  }

  /** The weekday of the instant `t`, as timeGetWeekday gives it. */
  lemma WeekdayOfInstant(el: Elements)
    requires InRange(el)
    ensures CivilOf(InstantOf(el)).wday == Weekday(EpochDay(el))
  {
    BreakAfterMake(el);
  }

  /** The date `k` days after the first of a month falls `k` weekdays later. */
  lemma {:induction false} WeekdayOfMonthDay(first: Elements, k: nat, dow: nat, weeks: nat)
    requires InRange(first) && first.day == 1 && InRange(first.(day := 1 + k))
    requires 1 <= dow <= 7 && k == 7 * weeks + (dow - Weekday(EpochDay(first)) + 7) % 7
    ensures Weekday(EpochDay(first.(day := 1 + k))) == dow
  {
    assert EpochDay(first.(day := 1 + k)) == EpochDay(first) + k;
    WeekdayAfter(EpochDay(first), k);
    RollToWeekday(Weekday(EpochDay(first)), dow, weeks);
  }

  /** For weeks 1 to 4, the rule's instant is day 1 + 7 * (week - 1) + delta of the rule's month. */
  lemma {:induction false} RuleToTimeNthWeek(rule: Rule, year: nat)
    requires ValidRule(rule) && year >= 1970 && rule.week != 0
    ensures
      var first := Elements(0, 0, rule.hour, 0, 1, rule.month, year - 1970);
      var delta := (rule.dow - Weekday(EpochDay(first)) + 7) % 7;
      var el := first.(day := 1 + 7 * (rule.week - 1) + delta);
      && InRange(el)
      && RuleToTime(rule, year) == InstantOf(el)
      && Weekday(EpochDay(el)) == rule.dow
  {
    var first := Elements(0, 0, rule.hour, 0, 1, rule.month, year - 1970);
    var delta := (rule.dow - Weekday(EpochDay(first)) + 7) % 7;
    var k := 7 * (rule.week - 1) + delta;
    WeekdayOfMonthDay(first, k, rule.dow, rule.week - 1);
  }

  /** The 1st of the month after is `MonthLength` days after the 1st of the month. */
  lemma NextMonthAnchor(rule: Rule, year: nat)
    requires ValidRule(rule) && year >= 1970 && rule.week == 0
    ensures EpochDay(RuleAnchor(rule, year))
         == EpochDay(Elements(0, 0, rule.hour, 0, 1, rule.month, year - 1970)) + MonthLength(year - 1970, rule.month)
  {
    YearLengthIsMonthSum(year - 1970);
  }

  /** For the last week, the rule's instant is one of the last seven days of the rule's month. */
  lemma {:induction false} RuleToTimeLastWeek(rule: Rule, year: nat)
    requires ValidRule(rule) && year >= 1970 && rule.week == 0
    ensures
      var y := year - 1970;
      var delta := (rule.dow - Weekday(EpochDay(RuleAnchor(rule, year))) + 7) % 7;
      var el := Elements(0, 0, rule.hour, 0, MonthLength(y, rule.month) - 6 + delta, rule.month, y);
      && InRange(el)
      && RuleToTime(rule, year) == InstantOf(el)
      && Weekday(EpochDay(el)) == rule.dow
  {
    var y := year - 1970;
    var len := MonthLength(y, rule.month);
    var next := RuleAnchor(rule, year);
    var first := Elements(0, 0, rule.hour, 0, 1, rule.month, y);
    NextMonthAnchor(rule, year);
    var delta := (rule.dow - Weekday(EpochDay(next)) + 7) % 7;
    var el := first.(day := len - 6 + delta);
    assert EpochDay(el) + 7 == EpochDay(next) + delta;
    assert RuleToTime(rule, year) == InstantOf(next) + delta * SECS_PER_DAY - 7 * SECS_PER_DAY;
    assert InstantOf(next) == EpochDay(next) * SECS_PER_DAY + rule.hour * SECS_PER_HOUR;
    assert InstantOf(el) == EpochDay(el) * SECS_PER_DAY + rule.hour * SECS_PER_HOUR;
    LastWeekWeekday(EpochDay(el), EpochDay(next), rule.dow);
  }

  lemma LastWeekWeekday(e: nat, next: nat, dow: nat)
    requires 1 <= dow <= 7 && e + 7 == next + (dow - Weekday(next) + 7) % 7
    ensures Weekday(e) == dow
  {
    var wn := Weekday(next);
    var delta := (dow - wn + 7) % 7;
    WeekdayAfter(next, delta);
    RollToWeekday(wn, dow, 0);
    assert Weekday(next + delta) == dow;
    WeekdayAfter(e, 7);
    assert Weekday(e + 7) == Weekday(e);
  }

  /** The fields `RuleToTimeFields` states, of a broken-down instant `c`. */
  predicate FieldsOfRule(c: Elements, rule: Rule, year: nat)
    requires ValidRule(rule) && year >= 1970
  {
    && c.wday == rule.dow && c.hour == rule.hour && c.minute == 0 && c.second == 0
    && c.month == rule.month && c.year + 1970 == year
    && (rule.week != 0 ==> 7 * (rule.week - 1) + 1 <= c.day <= 7 * rule.week)
    && (rule.week == 0 ==> MonthLength(year - 1970, rule.month) - 7 < c.day <= MonthLength(year - 1970, rule.month))
  }

  /** Breaking down the instant of in-range fields `el` whose weekday is `dow` gives `el` back, weekday included. */
  lemma BreakRuleInstant(el: Elements, dow: nat)
    requires InRange(el) && Weekday(EpochDay(el)) == dow
    ensures InstantOf(el) >= 0
    ensures CivilOf(InstantOf(el)) == el.(wday := dow)
  {
    BreakAfterMake(el);
  }

  lemma RuleToTimeFieldsNthWeek(rule: Rule, year: nat)
    requires ValidRule(rule) && year >= 1970 && rule.week != 0
    ensures RuleToTime(rule, year) >= 0
    ensures FieldsOfRule(CivilOf(RuleToTime(rule, year)), rule, year)
  {
    RuleToTimeNthWeek(rule, year);
    var first := Elements(0, 0, rule.hour, 0, 1, rule.month, year - 1970);
    var delta := (rule.dow - Weekday(EpochDay(first)) + 7) % 7;
    var el := first.(day := 1 + 7 * (rule.week - 1) + delta);
    assert RuleToTime(rule, year) == InstantOf(el);
    BreakRuleInstant(el, rule.dow);
    assert CivilOf(RuleToTime(rule, year)) == el.(wday := rule.dow);
  }

  lemma RuleToTimeFieldsLastWeek(rule: Rule, year: nat)
    requires ValidRule(rule) && year >= 1970 && rule.week == 0
    ensures RuleToTime(rule, year) >= 0
    ensures FieldsOfRule(CivilOf(RuleToTime(rule, year)), rule, year)
  {
    RuleToTimeLastWeek(rule, year);
    var y := year - 1970;
    var delta := (rule.dow - Weekday(EpochDay(RuleAnchor(rule, year))) + 7) % 7;
    var el := Elements(0, 0, rule.hour, 0, MonthLength(y, rule.month) - 6 + delta, rule.month, y);
    assert RuleToTime(rule, year) == InstantOf(el);
    BreakRuleInstant(el, rule.dow);
    assert CivilOf(RuleToTime(rule, year)) == el.(wday := rule.dow);
  }

  /** The local instant of `rule` in `year` is the one its fields describe. */
  lemma RuleToTimeFields(rule: Rule, year: nat)
    requires ValidRule(rule) && year >= 1970
    ensures RuleToTime(rule, year) >= 0
    ensures
      var c := CivilOf(RuleToTime(rule, year));
      && c.wday == rule.dow && c.hour == rule.hour && c.minute == 0 && c.second == 0
      && c.month == rule.month && c.year + 1970 == year
      && (rule.week != 0 ==> 7 * (rule.week - 1) + 1 <= c.day <= 7 * rule.week)
      && (rule.week == 0 ==> MonthLength(year - 1970, rule.month) - 7 < c.day <= MonthLength(year - 1970, rule.month))
  {
    if rule.week != 0 {
      RuleToTimeFieldsNthWeek(rule, year);
    } else {
      RuleToTimeFieldsLastWeek(rule, year);
    }
  }

  /** 2024-01-01 is day 19723 of the epoch; 2024 is a leap year. */
  lemma Year2024Start()
    ensures DaysBeforeYear(54) == 19723 && IsLeap(54)
  {
    DaysBeforeYearClosedForm(54);
  }

  /** The default German DST rule resolves to 2024-03-31T02:00 local time. */
  lemma GermanDst2024()
    ensures RuleToTime(GermanDst, 2024) == InstantOf(Elements(0, 0, 2, 0, 31, 3, 54)) == 1711850400
  {
    Year2024Start();
    var first := RuleAnchor(GermanDst, 2024);
    assert first == Elements(0, 0, 2, 0, 1, 4, 54);
    assert DaysBeforeMonth(54, 4) == 91;
    assert EpochDay(first) == 19814;
    assert Weekday(19814) == 2;
    assert DaysBeforeMonth(54, 3) == 60;
    assert EpochDay(Elements(0, 0, 2, 0, 31, 3, 54)) == 19813;
  }

  /** The default German STD rule resolves to 2024-10-27T03:00 local time. */
  lemma GermanStd2024()
    ensures RuleToTime(GermanStd, 2024) == InstantOf(Elements(0, 0, 3, 0, 27, 10, 54)) == 1729998000
  {
    Year2024Start();
    var first := RuleAnchor(GermanStd, 2024);
    assert first == Elements(0, 0, 3, 0, 1, 11, 54);
    assert DaysBeforeMonth(54, 11) == 305;
    assert EpochDay(first) == 20028;
    assert Weekday(20028) == 6;
    assert DaysBeforeMonth(54, 10) == 274;
    assert EpochDay(Elements(0, 0, 3, 0, 27, 10, 54)) == 20023;
  }

  /** A rule with a different hour takes effect correspondingly earlier or later on the same day. */
  lemma RuleToTimeHourShift(rule: Rule, year: nat, h: nat)
    requires ValidRule(rule) && year >= 1970 && h < 24
    ensures RuleToTime(rule.(hour := h), year) + rule.hour * SECS_PER_HOUR == RuleToTime(rule, year) + h * SECS_PER_HOUR
  {
    var a := RuleAnchor(rule, year);
    var b := RuleAnchor(rule.(hour := h), year);
    assert b == a.(hour := h);
    assert EpochDay(b) == EpochDay(a);
    assert InstantOf(b) + rule.hour * SECS_PER_HOUR == InstantOf(a) + h * SECS_PER_HOUR;
  }

  // ---------------------------------------------------------------------------
  // Transition instants and the DST test for a pair of rules

  /** The four cached instants: when DST and standard time start, in UTC and in local time. */
  datatype Transitions = Transitions(dstUtc: int, stdUtc: int, dstLocal: int, stdLocal: int)

  /**
   * timezoneCalculateStartTime: the local instants come from the rules; DST
   * starts at a local time on the standard-time clock and standard time at a
   * local time on the DST clock, so each is converted with the other offset.
   */
  function StartTimes(dst: Rule, std: Rule, year: nat): (tr: Transitions)
    requires ValidRule(dst) && ValidRule(std) && year >= 1970
  {
    var dstLocal := RuleToTime(dst, year);
    var stdLocal := RuleToTime(std, year);
    Transitions(dstLocal - std.offset * SECS_PER_MIN, stdLocal - dst.offset * SECS_PER_MIN, dstLocal, stdLocal)
  }

  /**
   * The DST test of timezoneUtcIsDst and timezoneLocalIsDst: inside [start, end)
   * when standard time starts after DST (northern hemisphere), outside
   * [end, start) otherwise (southern hemisphere).
   */
  predicate InDst(x: int, start: int, end: int)
  {
    if end > start then start <= x < end else !(end <= x < start)
  }

  /** The two orders are complements of each other: swapping the starts swaps DST and standard time. */
  lemma InDstSwapped(x: int, start: int, end: int)
    requires start != end
    ensures InDst(x, start, end) <==> !InDst(x, end, start)
  {
  }

  /** timezoneUtcIsDst for rules whose transitions are those of the year of `utc`. */
  predicate UtcIsDst(dst: Rule, std: Rule, utc: int)
    requires ValidRule(dst) && ValidRule(std)
  {
    var tr := StartTimes(dst, std, YearOfInstant(utc));
    InDst(utc, tr.dstUtc, tr.stdUtc)
  }

  /** timezoneLocalIsDst for rules whose transitions are those of the year of `local`. */
  predicate LocalIsDst(dst: Rule, std: Rule, local: int)
    requires ValidRule(dst) && ValidRule(std)
  {
    var tr := StartTimes(dst, std, YearOfInstant(local));
    InDst(local, tr.dstLocal, tr.stdLocal)
  }

  /** timezoneTimeToLocal: UTC plus the offset in force. */
  function ToLocal(dst: Rule, std: Rule, utc: int): int
    requires ValidRule(dst) && ValidRule(std)
  {
    if UtcIsDst(dst, std, utc) then utc + dst.offset * SECS_PER_MIN else utc + std.offset * SECS_PER_MIN
  }

  /** timezoneTimeToUTC: local time minus the offset in force. */
  function ToUtc(dst: Rule, std: Rule, local: int): int
    requires ValidRule(dst) && ValidRule(std)
  {
    if LocalIsDst(dst, std, local) then local - dst.offset * SECS_PER_MIN else local - std.offset * SECS_PER_MIN
  }

  /** The local transition instants of a year lie in that year. */
  lemma TransitionsInYear(dst: Rule, std: Rule, year: nat)
    requires ValidRule(dst) && ValidRule(std) && year >= 1970
    ensures YearOfInstant(StartTimes(dst, std, year).dstLocal) == year
    ensures YearOfInstant(StartTimes(dst, std, year).stdLocal) == year
  {
    RuleToTimeFields(dst, year);
    RuleToTimeFields(std, year);
  }

  /**
   * A local instant in a month from February to November lies at least 31 days
   * from either end of its year, so moving it by an offset of at most 0x8000
   * minutes (under 23 days) keeps it in that year.
   */
  lemma ShiftStaysInYear(t: nat, off: int)
    requires 2 <= CivilOf(t).month <= 11 && -0x8000 <= off <= 0x8000
    ensures t + off * SECS_PER_MIN >= 0 && YearOfInstant(t + off * SECS_PER_MIN) == YearOf(t)
  {
    var y := CivilOf(t).year;
    InnerMonthsBounds(t);
    var start := DaysBeforeYear(y);
    assert (start + 31) * SECS_PER_DAY - 0x8000 * SECS_PER_MIN >= start * SECS_PER_DAY;
    assert (start + YearLength(y) - 31) * SECS_PER_DAY + 0x8000 * SECS_PER_MIN <= (start + YearLength(y)) * SECS_PER_DAY;
    CivilYearBounds(t + off * SECS_PER_MIN, y);
  }

  /** An instant in a month from February to November lies at least 31 days from either end of its year. */
  lemma InnerMonthsBounds(t: nat)
    requires 2 <= CivilOf(t).month <= 11
    ensures
      var y := CivilOf(t).year;
      (DaysBeforeYear(y) + 31) * SECS_PER_DAY <= t < (DaysBeforeYear(y) + YearLength(y) - 31) * SECS_PER_DAY
  {
    var c := CivilOf(t);
    CivilOfInRange(t);
    MakeAfterBreak(t);
    YearLengthIsMonthSum(c.year);
    DaysBeforeMonthGrows(c.year, 1, c.month);
    DaysBeforeMonthGrows(c.year, c.month, 12);
    assert DaysBeforeMonth(c.year, 13) == DaysBeforeMonth(c.year, 12) + 31;
    var days := DaysBeforeYear(c.year) + DaysBeforeMonth(c.year, c.month) + c.day - 1;
    assert t == days * SECS_PER_DAY + c.hour * SECS_PER_HOUR + c.minute * SECS_PER_MIN + c.second;
  }

  /**
   * When DST starts in a month from February to November, the UTC start of DST
   * lies in the same year as its local start, so a cache keyed on the year of
   * the UTC start is keyed on the year it was computed for.
   */
  lemma UtcStartInYear(dst: Rule, std: Rule, year: nat)
    requires ValidRule(dst) && ValidRule(std) && year >= 1970 && 2 <= dst.month <= 11
    ensures YearOfInstant(StartTimes(dst, std, year).dstUtc) == year
  {
    RuleToTimeFields(dst, year);
    ShiftStaysInYear(RuleToTime(dst, year), -std.offset);
  }

  /**
   * Converting UTC to local time and back gives the UTC instant again, for
   * northern-hemisphere rules (DST ahead of standard time, DST starting first)
   * and outside the hour after standard time starts, whose local times repeat
   * those of the hour before (lemma FallBackRepeats).
   */
  lemma ToUtcAfterToLocal(dst: Rule, std: Rule, utc: int)
    requires ValidRule(dst) && ValidRule(std) && std.offset <= dst.offset
    requires StartTimes(dst, std, YearOfInstant(utc)).dstUtc < StartTimes(dst, std, YearOfInstant(utc)).stdUtc
    requires YearOfInstant(ToLocal(dst, std, utc)) == YearOfInstant(utc)
    requires var stdUtc := StartTimes(dst, std, YearOfInstant(utc)).stdUtc;
      !(stdUtc <= utc < stdUtc + (dst.offset - std.offset) * SECS_PER_MIN)
    ensures ToUtc(dst, std, ToLocal(dst, std, utc)) == utc
  {
  }

  /**
   * Converting local time to UTC and back gives the local instant again, for
   * northern-hemisphere rules and outside the hour skipped when DST starts,
   * whose local times do not exist.
   */
  lemma ToLocalAfterToUtc(dst: Rule, std: Rule, local: int)
    requires ValidRule(dst) && ValidRule(std) && std.offset <= dst.offset
    requires StartTimes(dst, std, YearOfInstant(local)).dstUtc < StartTimes(dst, std, YearOfInstant(local)).stdUtc
    requires YearOfInstant(ToUtc(dst, std, local)) == YearOfInstant(local)
    requires var dstLocal := StartTimes(dst, std, YearOfInstant(local)).dstLocal;
      !(dstLocal <= local < dstLocal + (dst.offset - std.offset) * SECS_PER_MIN)
    ensures ToLocal(dst, std, ToUtc(dst, std, local)) == local
  {
  }

  /**
   * The hour after standard time starts and the hour before it show the same
   * local times: the UTC instants `utc` and `utc` plus the offset difference
   * convert to the same local instant.
   */
  lemma FallBackRepeats(dst: Rule, std: Rule, utc: int)
    requires ValidRule(dst) && ValidRule(std) && std.offset < dst.offset
    requires var tr := StartTimes(dst, std, YearOfInstant(utc));
      tr.dstUtc <= utc < tr.stdUtc <= utc + (dst.offset - std.offset) * SECS_PER_MIN
    requires YearOfInstant(utc + (dst.offset - std.offset) * SECS_PER_MIN) == YearOfInstant(utc)
    ensures var later := utc + (dst.offset - std.offset) * SECS_PER_MIN;
      later != utc && ToLocal(dst, std, later) == ToLocal(dst, std, utc)
  {
  }

  /** 2024-01-01T00:00Z and 2025-01-01T00:00Z as instants. */
  const Start2024: nat := 1704067200
  const Start2025: nat := 1735689600

  /** In 2024 the default German rules put DST from 2024-03-31T01:00Z up to 2024-10-27T01:00Z. */
  lemma GermanDstWindow2024(utc: int)
    requires Start2024 <= utc < Start2025
    ensures UtcIsDst(GermanDst, GermanStd, utc) <==> 1711846800 <= utc < 1729990800
  {
    Year2024Start();
    CivilYearBounds(utc, 54);
    GermanDst2024();
    GermanStd2024();
  }

  /** The years a freshly computed cache is keyed on by the local and by the UTC DST start. */
  lemma CachedYear(dst: Rule, std: Rule, year: nat)
    requires ValidRule(dst) && ValidRule(std) && year >= 1970
    ensures YearOfInstant(StartTimes(dst, std, year).dstLocal) == year
    ensures 2 <= dst.month <= 11 ==> YearOfInstant(StartTimes(dst, std, year).dstUtc) == year
  {
    TransitionsInYear(dst, std, year);
    if 2 <= dst.month <= 11 {
      UtcStartInYear(dst, std, year);
    }
  }

  // ---------------------------------------------------------------------------
  // The module state of timezone.c

  /**
   * The working copies of the two rules, their persistent copies (the EEPROM
   * records) and the four transition instants cached for one year.
   */
  class TimezoneEngine {
    var dstRule: Rule
    var stdRule: Rule
    var storedDst: Rule
    var storedStd: Rule
    var dstStartUtc: int
    var stdStartUtc: int
    var dstStartLocal: int
    var stdStartLocal: int

    /** Both working rules and both stored rules are well formed. */
    predicate Valid()
      reads this
    {
      ValidRule(dstRule) && ValidRule(stdRule) && ValidRule(storedDst) && ValidRule(storedStd)
    }

    function Cache(): Transitions
      reads this
    {
      Transitions(dstStartUtc, stdStartUtc, dstStartLocal, stdStartLocal)
    }

    /** The cache holds the transitions of the working rules in the year of its UTC DST start. */
    predicate UtcCacheCurrent()
      reads this
    {
      Valid() && Cache() == StartTimes(dstRule, stdRule, YearOfInstant(dstStartUtc))
    }

    /** The cache holds the transitions of the working rules in the year of its local DST start. */
    predicate LocalCacheCurrent()
      reads this
    {
      Valid() && Cache() == StartTimes(dstRule, stdRule, YearOfInstant(dstStartLocal))
    }

    /** timezoneInit: the rules are read from the store; the cached instants start at zero. */
    constructor (eeDst: Rule, eeStd: Rule)
      requires ValidRule(eeDst) && ValidRule(eeStd)
      ensures Valid()
      ensures storedDst == dstRule == eeDst && storedStd == stdRule == eeStd
      ensures Cache() == Transitions(0, 0, 0, 0)
    {
      storedDst, storedStd := eeDst, eeStd;
      dstRule, stdRule := eeDst, eeStd;
      dstStartUtc, stdStartUtc, dstStartLocal, stdStartLocal := 0, 0, 0, 0;
    }

    /** timezoneCalculateStartTime */
    method CalculateStartTime(year: nat)
      requires Valid() && year >= 1970
      modifies this
      ensures dstRule == old(dstRule) && stdRule == old(stdRule)
      ensures storedDst == old(storedDst) && storedStd == old(storedStd)
      ensures Valid() && Cache() == StartTimes(dstRule, stdRule, year)
      ensures LocalCacheCurrent()
      ensures 2 <= dstRule.month <= 11 ==> UtcCacheCurrent()
    {
      CachedYear(dstRule, stdRule, year);
      dstStartLocal := RuleToTime(dstRule, year);
      stdStartLocal := RuleToTime(stdRule, year);
      dstStartUtc := dstStartLocal - stdRule.offset * SECS_PER_MIN;
      stdStartUtc := stdStartLocal - dstRule.offset * SECS_PER_MIN;
    }

    /**
     * timezoneSetDst as written: the working and the stored DST rule are
     * replaced, but the cached transitions still belong to the old rule.
     */
    method SetDstAsWritten(dst: Rule)
      requires Valid() && ValidRule(dst)
      modifies this
      ensures Valid() && dstRule == dst && storedDst == dst
      ensures stdRule == old(stdRule) && storedStd == old(storedStd)
      ensures Cache() == old(Cache())
    {
      dstRule := dst;
      storedDst := dst;
    }

    /** timezoneSetStd as written: like SetDstAsWritten, for the standard-time rule. */
    method SetStdAsWritten(std: Rule)
      requires Valid() && ValidRule(std)
      modifies this
      ensures Valid() && stdRule == std && storedStd == std
      ensures dstRule == old(dstRule) && storedDst == old(storedDst)
      ensures Cache() == old(Cache())
    {
      stdRule := std;
      storedStd := std;
    }

    /**
     * timezoneSetDst, corrected: the rule is replaced and stored, and the cached
     * transitions are recomputed for the year they were cached for.
     */
    method SetDst(dst: Rule)
      requires Valid() && ValidRule(dst)
      modifies this
      ensures Valid() && dstRule == dst && storedDst == dst
      ensures stdRule == old(stdRule) && storedStd == old(storedStd)
      ensures Cache() == StartTimes(dst, stdRule, YearOfInstant(old(dstStartLocal)))
      ensures LocalCacheCurrent()
    {
      dstRule := dst;
      storedDst := dst;
      CalculateStartTime(YearOfInstant(dstStartLocal));
    }

    /** timezoneSetStd, corrected: like SetDst, for the standard-time rule. */
    method SetStd(std: Rule)
      requires Valid() && ValidRule(std)
      modifies this
      ensures Valid() && stdRule == std && storedStd == std
      ensures dstRule == old(dstRule) && storedDst == old(storedDst)
      ensures Cache() == StartTimes(dstRule, std, YearOfInstant(old(dstStartLocal)))
      ensures LocalCacheCurrent()
    {
      stdRule := std;
      storedStd := std;
      CalculateStartTime(YearOfInstant(dstStartLocal));
    }

    /** timezoneGetDst: the working DST rule is reloaded from the store and returned. */
    method GetDst() returns (r: Rule)
      requires Valid()
      modifies this
      ensures Valid() && r == storedDst && dstRule == storedDst && storedDst == old(storedDst)
      ensures stdRule == old(stdRule) && storedStd == old(storedStd) && Cache() == old(Cache())
    {
      dstRule := storedDst;
      r := dstRule;
    }

    /** timezoneGetStd: the working standard-time rule is reloaded from the store and returned. */
    method GetStd() returns (r: Rule)
      requires Valid()
      modifies this
      ensures Valid() && r == storedStd && stdRule == storedStd && storedStd == old(storedStd)
      ensures dstRule == old(dstRule) && storedDst == old(storedDst) && Cache() == old(Cache())
    {
      stdRule := storedStd;
      r := stdRule;
    }

    /**
     * timezoneUtcIsDst: the transitions are recomputed when `utc` lies in
     * another year than the cached UTC DST start; the answer is then the DST
     * test on the cached UTC instants. With a current cache, or after the
     * recomputation, it is the DST test for the year of `utc`.
     */
    method UtcIsDstAt(utc: int) returns (isDst: bool)
      requires Valid()
      modifies this
      ensures Valid() && dstRule == old(dstRule) && stdRule == old(stdRule)
      ensures storedDst == old(storedDst) && storedStd == old(storedStd)
      ensures YearOfInstant(utc) == YearOfInstant(old(dstStartUtc)) ==> Cache() == old(Cache())
      ensures YearOfInstant(utc) != YearOfInstant(old(dstStartUtc)) ==>
        Cache() == StartTimes(dstRule, stdRule, YearOfInstant(utc))
      ensures isDst == InDst(utc, dstStartUtc, stdStartUtc)
      ensures old(UtcCacheCurrent()) || YearOfInstant(utc) != YearOfInstant(old(dstStartUtc)) ==>
        isDst == UtcIsDst(dstRule, stdRule, utc)
      ensures old(UtcCacheCurrent()) && 2 <= dstRule.month <= 11 ==> UtcCacheCurrent()
    {
      if YearOfInstant(utc) != YearOfInstant(dstStartUtc) {
        CalculateStartTime(YearOfInstant(utc));
      }
      if stdStartUtc > dstStartUtc {
        isDst := utc >= dstStartUtc && utc < stdStartUtc;
      } else {
        isDst := !(utc >= stdStartUtc && utc < dstStartUtc);
      }
    }

    /** timezoneLocalIsDst: as UtcIsDstAt, on the cached local instants. */
    method LocalIsDstAt(local: int) returns (isDst: bool)
      requires Valid()
      modifies this
      ensures Valid() && dstRule == old(dstRule) && stdRule == old(stdRule)
      ensures storedDst == old(storedDst) && storedStd == old(storedStd)
      ensures YearOfInstant(local) == YearOfInstant(old(dstStartLocal)) ==> Cache() == old(Cache())
      ensures YearOfInstant(local) != YearOfInstant(old(dstStartLocal)) ==>
        Cache() == StartTimes(dstRule, stdRule, YearOfInstant(local))
      ensures isDst == InDst(local, dstStartLocal, stdStartLocal)
      ensures old(LocalCacheCurrent()) || YearOfInstant(local) != YearOfInstant(old(dstStartLocal)) ==>
        LocalCacheCurrent() && isDst == LocalIsDst(dstRule, stdRule, local)
    {
      if YearOfInstant(local) != YearOfInstant(dstStartLocal) {
        CalculateStartTime(YearOfInstant(local));
      }
      if stdStartLocal > dstStartLocal {
        isDst := local >= dstStartLocal && local < stdStartLocal;
      } else {
        isDst := !(local >= stdStartLocal && local < dstStartLocal);
      }
    }

    /** timezoneTimeToLocal */
    method TimeToLocal(utc: int) returns (local: int)
      requires Valid()
      modifies this
      ensures Valid() && dstRule == old(dstRule) && stdRule == old(stdRule)
      ensures storedDst == old(storedDst) && storedStd == old(storedStd)
      ensures local - utc == (if InDst(utc, dstStartUtc, stdStartUtc) then dstRule.offset else stdRule.offset) * SECS_PER_MIN
      ensures old(UtcCacheCurrent()) || YearOfInstant(utc) != YearOfInstant(old(dstStartUtc)) ==>
        local == ToLocal(dstRule, stdRule, utc)
    {
      if YearOfInstant(utc) != YearOfInstant(dstStartUtc) {
        CalculateStartTime(YearOfInstant(utc));
      }
      var isDst := UtcIsDstAt(utc);
      if isDst {
        local := utc + dstRule.offset * SECS_PER_MIN;
      } else {
        local := utc + stdRule.offset * SECS_PER_MIN;
      }
    }

    /** timezoneTimeToUTC */
    method TimeToUtc(local: int) returns (utc: int)
      requires Valid()
      modifies this
      ensures Valid() && dstRule == old(dstRule) && stdRule == old(stdRule)
      ensures storedDst == old(storedDst) && storedStd == old(storedStd)
      ensures local - utc == (if InDst(local, dstStartLocal, stdStartLocal) then dstRule.offset else stdRule.offset) * SECS_PER_MIN
      ensures old(LocalCacheCurrent()) || YearOfInstant(local) != YearOfInstant(old(dstStartLocal)) ==>
        LocalCacheCurrent() && utc == ToUtc(dstRule, stdRule, local)
    {
      if YearOfInstant(local) != YearOfInstant(dstStartLocal) {
        CalculateStartTime(YearOfInstant(local));
      }
      var isDst := LocalIsDstAt(local);
      if isDst {
        utc := local - dstRule.offset * SECS_PER_MIN;
      } else {
        utc := local - stdRule.offset * SECS_PER_MIN;
      }
    }
  }

  /**
   * Changing the DST rule to start at 03:00 instead of 02:00: with the setter
   * as written, 2024-03-31T01:00Z is still reported as DST from the old
   * transitions, although under the new rule DST starts an hour later; with
   * the corrected setter it is not.
   */
  method StaleCacheAfterSetDst() returns (asWritten: bool, corrected: bool)
    ensures asWritten && !corrected
    ensures !UtcIsDst(GermanDst.(hour := 3), GermanStd, 1711846800)
  {
    var later := GermanDst.(hour := 3);
    Year2024Start();
    CivilYearBounds(1711846800, 54);
    CivilYearBounds(1711850400, 54);
    GermanDst2024();
    GermanStd2024();
    RuleToTimeHourShift(GermanDst, 2024, 3);
    var stale := new TimezoneEngine(GermanDst, GermanStd);
    stale.CalculateStartTime(2024);
    stale.SetDstAsWritten(later);
    asWritten := stale.UtcIsDstAt(1711846800);
    var fixed := new TimezoneEngine(GermanDst, GermanStd);
    fixed.CalculateStartTime(2024);
    fixed.SetDst(later);
    corrected := fixed.UtcIsDstAt(1711846800);
  }
}
