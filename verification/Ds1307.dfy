/**
 * The DS1307 real-time-clock driver: its registers hold packed BCD values
 * next to control bits (clock halt, 12/24-hour mode, PM). Each setter encodes
 * a value to BCD and masks it; each getter masks the control bits and
 * decodes the two nibbles. The chip is its register file, addresses 0 to 7;
 * a read or a write of a register stands for the I2C transfer.
 */
module Ds1307 {
  import opened Clock

  // register addresses
  const SECONDS_ADDR: nat := 0
  const MINUTES_ADDR: nat := 1
  const HOURS_ADDR: nat := 2
  const DAY_ADDR: nat := 3
  const DATE_ADDR: nat := 4
  const MONTH_ADDR: nat := 5
  const YEAR_ADDR: nat := 6
  const CONTROL_ADDR: nat := 7

  // control bits
  const CLOCK_HALT: bv8 := 0x80
  const HOUR_MODE: bv8 := 0x40
  const HOUR_PM: bv8 := 0x20
  const SQUAREWAVE_ENABLE: bv8 := 0x10
  const RATE_1HZ: bv8 := 0x00

  /** The hour modes: 12-hour is the first enumerator (0), 24-hour the second (1). */
  const Mode12HR: bv8 := 0
  const Mode24HR: bv8 := 1

  // ---------------------------------------------------------------------------
  // BCD

  /**
   * uint2bcd: the tens in the high nibble, the units in the low one. The
   * result is stored in a byte, so the 16-bit value is cut to its low 8 bits;
   * the arithmetic on bytes below gives the same low 8 bits.
   */
  function Bcd(v: bv8): (b: bv8)
    ensures v < 100 ==> b >> 4 == v / 10 && b & 0x0F == v % 10 && IsBcd(b)
  {
    ((v / 10) << 4) | (v % 10)
  }

  /**
   * The nibble decoding of the getters: high nibble times ten plus low
   * nibble. The largest result, 165, fits in the byte they return.
   */
  function FromBcd(b: bv8): (v: bv8)
    ensures IsBcd(b) ==> v < 100
  {
    (b >> 4) * 10 + (b & 0x0F)
  }

  /** Both nibbles of `b` are decimal digits. */
  predicate IsBcd(b: bv8)
  {
    b >> 4 < 10 && b & 0x0F < 10
  }

  /** Decoding the BCD of a value under 100 gives the value back. */
  lemma BcdRoundTrip(v: bv8)
    requires v < 100
    ensures IsBcd(Bcd(v))
    ensures FromBcd(Bcd(v)) == v
  {
  }

  /** Encoding the value of a BCD byte gives the byte back. */
  lemma FromBcdRoundTrip(b: bv8)
    requires IsBcd(b)
    ensures Bcd(FromBcd(b)) == b
  {
  }

  // ---------------------------------------------------------------------------
  // The registers' encodings

  /** ds1307SetSeconds: the BCD seconds with the clock-halt bit cleared. */
  function EncodeSeconds(s: bv8): (b: bv8)
    ensures b & CLOCK_HALT == 0
  {
    Bcd(s) & !CLOCK_HALT
  }

  /** ds1307GetSeconds: the clock-halt bit is masked before decoding. */
  function DecodeSeconds(b: bv8): (s: bv8)
    ensures s <= 85
  {
    FromBcd(b & !CLOCK_HALT)
  }

  /** Seconds read back as written (up to 79: from 80 on the top BCD bit is the clock-halt bit). */
  lemma SecondsRoundTrip(s: bv8)
    requires s < 80
    ensures DecodeSeconds(EncodeSeconds(s)) == s
  {
    BcdRoundTrip(s);
    assert Bcd(s) & !CLOCK_HALT == Bcd(s);
  }

  /** The seconds read do not depend on the clock-halt bit. */
  lemma SecondsIgnoreHalt(b: bv8)
    ensures DecodeSeconds(b | CLOCK_HALT) == DecodeSeconds(b)
    ensures DecodeSeconds(b & !CLOCK_HALT) == DecodeSeconds(b)
  {
    assert (b | CLOCK_HALT) & !CLOCK_HALT == b & !CLOCK_HALT;
    assert (b & !CLOCK_HALT) & !CLOCK_HALT == b & !CLOCK_HALT;
  }

  /** ds1307SetMinutes: the BCD minutes with bit 7 cleared. */
  function EncodeMinutes(m: bv8): (b: bv8)
    ensures b & 0x80 == 0
  {
    Bcd(m) & !0x80
  }

  /** ds1307GetMinutes: no bit is masked. */
  function DecodeMinutes(b: bv8): (m: bv8)
    ensures IsBcd(b) ==> m < 100
  {
    FromBcd(b)
  }

  lemma MinutesRoundTrip(m: bv8)
    requires m < 80
    ensures DecodeMinutes(EncodeMinutes(m)) == m
  {
    BcdRoundTrip(m);
    assert Bcd(m) & !0x80 == Bcd(m);
  }

  /** The register is in 12-hour mode. */
  predicate Is12Hour(b: bv8)
  {
    b & HOUR_MODE != 0
  }

  /**
   * ds1307GetHours: in 12-hour mode the top three bits (the unused bit, the
   * mode and PM) are masked, in 24-hour mode the top two.
   */
  function DecodeHours(b: bv8): (h: bv8)
    ensures Is12Hour(b) ==> h <= 25
    ensures !Is12Hour(b) ==> h <= 45
  {
    if Is12Hour(b) then FromBcd(b & !0xE0) else FromBcd(b & !0xC0)
  }

  /**
   * The hours read do not depend on the masked bits: bit 7 and PM in 12-hour
   * mode (the mode bit stays set), bit 7 in 24-hour mode (it stays clear).
   */
  lemma HoursIgnoreControl(b: bv8)
    ensures Is12Hour(b) ==> DecodeHours(b | 0xA0) == DecodeHours(b) == DecodeHours(b & !0xA0)
    ensures !Is12Hour(b) ==> DecodeHours(b | 0x80) == DecodeHours(b) == DecodeHours(b & !0x80)
  {
    if Is12Hour(b) {
      assert Is12Hour(b | 0xA0) && Is12Hour(b & !0xA0);
      assert (b | 0xA0) & !0xE0 == b & !0xE0;
      assert (b & !0xA0) & !0xE0 == b & !0xE0;
    } else {
      assert !Is12Hour(b | 0x80) && !Is12Hour(b & !0x80);
      assert (b | 0x80) & !0xC0 == b & !0xC0;
      assert (b & !0x80) & !0xC0 == b & !0xC0;
    }
  }

  /**
   * The hour of the day (0 to 23) a hours register denotes: in 12-hour mode
   * the clock-face hour 1 to 12 with 12 standing for 0, plus 12 when PM is set.
   */
  function HourOfDay(b: bv8): bv8
  {
    if Is12Hour(b) then DecodeHours(b) % 12 + (if b & HOUR_PM != 0 then 12 else 0)
    else DecodeHours(b)
  }

  /**
   * ds1307SetHours as written: in 12-hour mode the 24-hour BCD value is masked
   * to five bits, the mode bit is set, and PM only for hours above 12.
   */
  function EncodeHoursAsWritten(h: bv8, current: bv8): (b: bv8)
    ensures Is12Hour(b) == Is12Hour(current)
    ensures Is12Hour(current) ==> (b & HOUR_PM != 0 <==> h > 12)
  {
    if Is12Hour(current) then
      var bcd := (Bcd(h) & !0xE0) | HOUR_MODE;
      if h > 12 then bcd | HOUR_PM else bcd
    else
      Bcd(h) & !0xC0
  }

  /** The clock-face hour of timeGetHourFormat12, for an hour held in a byte. */
  function Format12(h: bv8): (f: bv8)
    requires h < 24
    ensures f as nat == HourFormat12(h as nat)
    ensures 1 <= f <= 12
  {
    if h == 0 then 12 else if h > 12 then h - 12 else h
  }

  /**
   * ds1307SetHours, corrected: in 12-hour mode the clock-face hour is encoded,
   * with PM from noon on.
   */
  function EncodeHours(h: bv8, current: bv8): (b: bv8)
    requires h < 24
    ensures Is12Hour(b) == Is12Hour(current)
    ensures Is12Hour(current) ==> (b & HOUR_PM != 0 <==> IsPM(h as nat))
  {
    if Is12Hour(current) then
      var bcd := Bcd(Format12(h)) | HOUR_MODE;
      if h >= 12 then bcd | HOUR_PM else bcd
    else
      Bcd(h) & !0xC0
  }

  /** In 24-hour mode both encodings store the hour and it is read back. */
  lemma Hours24RoundTrip(h: bv8, current: bv8)
    requires h < 24 && !Is12Hour(current)
    ensures EncodeHoursAsWritten(h, current) == EncodeHours(h, current)
    ensures DecodeHours(EncodeHours(h, current)) == h
    ensures HourOfDay(EncodeHours(h, current)) == h
  {
    BcdRoundTrip(h);
    assert Bcd(h) & !0xC0 == Bcd(h);
  }

  /** In 12-hour mode the corrected encoding reads back as the clock-face hour and denotes the hour written. */
  lemma Hours12RoundTrip(h: bv8, current: bv8)
    requires h < 24 && Is12Hour(current)
    ensures DecodeHours(EncodeHours(h, current)) as nat == HourFormat12(h as nat)
    ensures HourOfDay(EncodeHours(h, current)) == h
  {
    var f := Format12(h);
    BcdRoundTrip(f);
    var b := EncodeHours(h, current);
    assert b & !0xE0 == Bcd(f);
  }

  /**
   * In 12-hour mode the encoding as written loses the hour: 21:00 reads back
   * as clock-face hour 1 with PM, that is 13:00, and noon as 12 without PM,
   * that is midnight.
   */
  lemma HoursAsWrittenLosesHour()
    ensures DecodeHours(EncodeHoursAsWritten(21, HOUR_MODE)) == 1
    ensures HourOfDay(EncodeHoursAsWritten(21, HOUR_MODE)) == 13
    ensures HourOfDay(EncodeHoursAsWritten(12, HOUR_MODE)) == 0
    ensures HourOfDay(EncodeHours(21, HOUR_MODE)) == 21 && HourOfDay(EncodeHours(12, HOUR_MODE)) == 12
  {
    assert EncodeHoursAsWritten(21, HOUR_MODE) == 0x61;
    assert EncodeHoursAsWritten(12, HOUR_MODE) == 0x52;
    Hours12RoundTrip(21, HOUR_MODE);
    Hours12RoundTrip(12, HOUR_MODE);
  }

  /** ds1307GetDate: the top two bits are masked. */
  function DecodeDate(b: bv8): (d: bv8)
    ensures d <= 45
  {
    FromBcd(b & !0xC0)
  }

  /** ds1307SetDate stores the plain BCD date; dates up to 39 read back. */
  lemma DateRoundTrip(d: bv8)
    requires d < 40
    ensures DecodeDate(Bcd(d)) == d
  {
    BcdRoundTrip(d);
    assert Bcd(d) & !0xC0 == Bcd(d);
  }

  /** The date read does not depend on the top two bits. */
  lemma DateIgnoresTopBits(b: bv8)
    ensures DecodeDate(b | 0xC0) == DecodeDate(b) == DecodeDate(b & !0xC0)
  {
    assert (b | 0xC0) & !0xC0 == b & !0xC0;
    assert (b & !0xC0) & !0xC0 == b & !0xC0;
  }

  /** ds1307GetMonth: the top three bits are masked. */
  function DecodeMonth(b: bv8): (m: bv8)
    ensures m <= 25
  {
    FromBcd(b & !0xE0)
  }

  /** ds1307SetMonth stores the plain BCD month; months up to 19 read back. */
  lemma MonthRoundTrip(m: bv8)
    requires m < 20
    ensures DecodeMonth(Bcd(m)) == m
  {
    BcdRoundTrip(m);
    assert Bcd(m) & !0xE0 == Bcd(m);
  }

  /** The month read does not depend on the top three bits. */
  lemma MonthIgnoresTopBits(b: bv8)
    ensures DecodeMonth(b | 0xE0) == DecodeMonth(b) == DecodeMonth(b & !0xE0)
  {
    assert (b | 0xE0) & !0xE0 == b & !0xE0;
    assert (b & !0xE0) & !0xE0 == b & !0xE0;
  }

  /** ds1307GetYear: no bit is masked. */
  function DecodeYear(b: bv8): (y: bv8)
    ensures IsBcd(b) ==> y < 100
  {
    FromBcd(b)
  }

  /** ds1307SetYear stores the plain BCD year; years up to 99 read back. */
  lemma YearRoundTrip(y: bv8)
    requires y < 100
    ensures DecodeYear(Bcd(y)) == y
  {
    BcdRoundTrip(y);
  }

  // ---------------------------------------------------------------------------
  // The chip

  class Chip {
    /** The register file, indexed by register address. */
    var regs: seq<bv8>

    predicate Valid()
      reads this
    {
      |regs| == 8
    }

    /** The chip with the register contents `initial` it holds at start-up. */
    constructor (initial: seq<bv8>)
      requires |initial| == 8
      ensures Valid() && regs == initial
    {
      regs := initial;
    }

    /** ds1307WriteRegister: the I2C write of one register. */
    method WriteRegister(reg: nat, data: bv8)
      requires Valid() && reg < 8
      modifies this
      ensures Valid() && regs == old(regs)[reg := data]
    {
      regs := regs[reg := data];
    }

    /** ds1307Init: start the oscillator, select 24-hour mode, 1 Hz square wave. */
    method Init()
      requires Valid()
      modifies this
      ensures Valid()
      ensures regs[SECONDS_ADDR] & CLOCK_HALT == 0 && regs[SECONDS_ADDR] & !CLOCK_HALT == old(regs[SECONDS_ADDR]) & !CLOCK_HALT
      ensures !Is12Hour(regs[HOURS_ADDR]) && regs[HOURS_ADDR] & !HOUR_MODE == old(regs[HOURS_ADDR]) & !HOUR_MODE
      ensures regs[CONTROL_ADDR] == SQUAREWAVE_ENABLE
      ensures forall i :: 0 <= i < 8 && i != SECONDS_ADDR && i != HOURS_ADDR && i != CONTROL_ADDR ==> regs[i] == old(regs[i])
    {
      EnableOscillator();
      SetHourMode(Mode24HR);
      SetSquarewaveOutput(SQUAREWAVE_ENABLE, RATE_1HZ);
    }

    /** ds1307EnableOscillator: clears the clock-halt bit, bit 7 of the seconds register. */
    method EnableOscillator()
      requires Valid()
      modifies this
      ensures Valid() && regs == old(regs)[SECONDS_ADDR := regs[SECONDS_ADDR]]
      ensures regs[SECONDS_ADDR] & CLOCK_HALT == 0
      ensures regs[SECONDS_ADDR] & !CLOCK_HALT == old(regs[SECONDS_ADDR]) & !CLOCK_HALT
      ensures DecodeSeconds(regs[SECONDS_ADDR]) == DecodeSeconds(old(regs[SECONDS_ADDR]))
    {
      var seconds := regs[SECONDS_ADDR];
      seconds := seconds & !CLOCK_HALT;
      SecondsIgnoreHalt(regs[SECONDS_ADDR]);
      WriteRegister(SECONDS_ADDR, seconds);
    }

    /** ds1307DisableOscillator: sets the clock-halt bit. */
    method DisableOscillator()
      requires Valid()
      modifies this
      ensures Valid() && regs == old(regs)[SECONDS_ADDR := regs[SECONDS_ADDR]]
      ensures regs[SECONDS_ADDR] & CLOCK_HALT != 0
      ensures regs[SECONDS_ADDR] & !CLOCK_HALT == old(regs[SECONDS_ADDR]) & !CLOCK_HALT
      ensures DecodeSeconds(regs[SECONDS_ADDR]) == DecodeSeconds(old(regs[SECONDS_ADDR]))
    {
      var seconds := regs[SECONDS_ADDR];
      seconds := seconds | CLOCK_HALT;
      SecondsIgnoreHalt(regs[SECONDS_ADDR]);
      WriteRegister(SECONDS_ADDR, seconds);
    }

    /**
     * ds1307SetHourMode: sets the mode bit, bit 6 of the hours register, for
     * 12-hour mode and clears it for any other mode. The stored hour is not
     * converted.
     */
    method SetHourMode(mode: bv8)
      requires Valid()
      modifies this
      ensures Valid() && regs == old(regs)[HOURS_ADDR := regs[HOURS_ADDR]]
      ensures Is12Hour(regs[HOURS_ADDR]) <==> mode == Mode12HR
      ensures regs[HOURS_ADDR] & !HOUR_MODE == old(regs[HOURS_ADDR]) & !HOUR_MODE
    {
      var hour := regs[HOURS_ADDR];
      if mode == Mode12HR {
        hour := hour | HOUR_MODE;
      } else {
        hour := hour & !HOUR_MODE;
      }
      WriteRegister(HOURS_ADDR, hour);
    }

    /** ds1307SetSquarewaveOutput: the control register becomes the rate bits or-ed with the enable bit. */
    method SetSquarewaveOutput(enable: bv8, rate: bv8)
      requires Valid()
      modifies this
      ensures Valid() && regs == old(regs)[CONTROL_ADDR := rate | enable]
    {
      var control: bv8 := 0x00;
      control := control | rate;
      control := control | enable;
      WriteRegister(CONTROL_ADDR, control);
    }

    /** ds1307SetSeconds: writing the seconds also starts the oscillator. */
    method SetSeconds(seconds: bv8)
      requires Valid()
      modifies this
      ensures Valid() && regs == old(regs)[SECONDS_ADDR := EncodeSeconds(seconds)]
      ensures regs[SECONDS_ADDR] & CLOCK_HALT == 0
      ensures seconds < 80 ==> DecodeSeconds(regs[SECONDS_ADDR]) == seconds
    {
      var bcdSeconds := Bcd(seconds);
      bcdSeconds := bcdSeconds & !CLOCK_HALT;
      if seconds < 80 {
        SecondsRoundTrip(seconds);
      }
      WriteRegister(SECONDS_ADDR, bcdSeconds);
    }

    /** ds1307SetMinutes */
    method SetMinutes(minutes: bv8)
      requires Valid()
      modifies this
      ensures Valid() && regs == old(regs)[MINUTES_ADDR := EncodeMinutes(minutes)]
      ensures minutes < 80 ==> DecodeMinutes(regs[MINUTES_ADDR]) == minutes
    {
      var bcdMinutes := Bcd(minutes);
      bcdMinutes := bcdMinutes & !0x80;
      if minutes < 80 {
        MinutesRoundTrip(minutes);
      }
      WriteRegister(MINUTES_ADDR, bcdMinutes);
    }

    /** ds1307SetHours as written: the mode is read from the chip and kept. */
    method SetHoursAsWritten(hours: bv8)
      requires Valid()
      modifies this
      ensures Valid() && regs == old(regs)[HOURS_ADDR := EncodeHoursAsWritten(hours, old(regs[HOURS_ADDR]))]
      ensures Is12Hour(regs[HOURS_ADDR]) == Is12Hour(old(regs[HOURS_ADDR]))
    {
      var bcdHours := Bcd(hours);
      var currentHours := regs[HOURS_ADDR];
      if currentHours & HOUR_MODE != 0 {
        bcdHours := bcdHours & !0xE0;
        bcdHours := bcdHours | HOUR_MODE;
        if hours > 12 {
          bcdHours := bcdHours | HOUR_PM;
        }
      } else {
        bcdHours := bcdHours & !0xC0;
      }
      WriteRegister(HOURS_ADDR, bcdHours);
    }

    /** ds1307SetHours, corrected: the hour read back is the hour written, in either mode. */
    method SetHours(hours: bv8)
      requires Valid() && hours < 24
      modifies this
      ensures Valid() && regs == old(regs)[HOURS_ADDR := EncodeHours(hours, old(regs[HOURS_ADDR]))]
      ensures Is12Hour(regs[HOURS_ADDR]) == Is12Hour(old(regs[HOURS_ADDR]))
      ensures HourOfDay(regs[HOURS_ADDR]) == hours
      ensures Is12Hour(regs[HOURS_ADDR]) ==> DecodeHours(regs[HOURS_ADDR]) as nat == HourFormat12(hours as nat)
      ensures !Is12Hour(regs[HOURS_ADDR]) ==> DecodeHours(regs[HOURS_ADDR]) == hours
    {
      var currentHours := regs[HOURS_ADDR];
      var bcdHours;
      if currentHours & HOUR_MODE != 0 {
        bcdHours := Bcd(Format12(hours)) | HOUR_MODE;
        if hours >= 12 {
          bcdHours := bcdHours | HOUR_PM;
        }
        Hours12RoundTrip(hours, currentHours);
      } else {
        bcdHours := Bcd(hours) & !0xC0;
        Hours24RoundTrip(hours, currentHours);
      }
      WriteRegister(HOURS_ADDR, bcdHours);
    }

    /** ds1307SetDate */
    method SetDate(date: bv8)
      requires Valid()
      modifies this
      ensures Valid() && regs == old(regs)[DATE_ADDR := Bcd(date)]
      ensures date < 40 ==> DecodeDate(regs[DATE_ADDR]) == date
    {
      var bcdDate := Bcd(date);
      if date < 40 {
        DateRoundTrip(date);
      }
      WriteRegister(DATE_ADDR, bcdDate);
    }

    /** ds1307SetMonth */
    method SetMonth(month: bv8)
      requires Valid()
      modifies this
      ensures Valid() && regs == old(regs)[MONTH_ADDR := Bcd(month)]
      ensures month < 20 ==> DecodeMonth(regs[MONTH_ADDR]) == month
    {
      var bcdMonth := Bcd(month);
      if month < 20 {
        MonthRoundTrip(month);
      }
      WriteRegister(MONTH_ADDR, bcdMonth);
    }

    /** ds1307SetYear */
    method SetYear(year: bv8)
      requires Valid()
      modifies this
      ensures Valid() && regs == old(regs)[YEAR_ADDR := Bcd(year)]
      ensures year < 100 ==> DecodeYear(regs[YEAR_ADDR]) == year
    {
      var bcdYear := Bcd(year);
      if year < 100 {
        YearRoundTrip(year);
      }
      WriteRegister(YEAR_ADDR, bcdYear);
    }
  }

  /**
   * Writing 21:00 to a chip in 12-hour mode: the driver as written leaves a
   * register that denotes 13:00; the corrected one leaves 21:00.
   */
  method SetHoursIn12HourMode() returns (asWritten: bv8, corrected: bv8)
    ensures asWritten == 13 && corrected == 21
  {
    HoursAsWrittenLosesHour();
    var chip := new Chip([0, 0, 0, 0, 0, 0, 0, 0]);
    chip.SetHourMode(Mode12HR);
    chip.SetHoursAsWritten(21);
    asWritten := HourOfDay(chip.regs[HOURS_ADDR]);
    var fixed := new Chip([0, 0, 0, 0, 0, 0, 0, 0]);
    fixed.SetHourMode(Mode12HR);
    fixed.SetHours(21);
    corrected := HourOfDay(fixed.regs[HOURS_ADDR]);
  }
}
