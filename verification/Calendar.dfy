/** Broken-down time: `gmtime` and `mktime` on a structure of 32-bit fields, in 64-bit arithmetic.
    Every 64-bit intermediate of the code is a `Long` variable, so that no step can overflow. */
module Calendar {
  import opened CivilDays

  const SECONDS_PER_DAY := 86400

  type Int = x: int | -0x8000_0000 <= x < 0x8000_0000

  datatype Fields = Fields(sec: Int, min: Int, hour: Int, mday: Int, mon: Int, year: Int, wday: Int, yday: Int, isdst: Int)

  // ----- What the functions compute

  /** The year of a time, counted from 1900. */
  function YearOf(time: int): int { CivilFromDays(time / SECONDS_PER_DAY).year - 1900 }

  predicate YearFits(time: int) { -0x8000_0000 <= YearOf(time) < 0x8000_0000 }

  /** The fields of a time whose year fits. */
  function BrokenDown(time: int): (f: Fields)
    requires YearFits(time)
    ensures 0 <= f.sec < 60 && 0 <= f.min < 60 && 0 <= f.hour < 24 && 0 <= f.mon < 12 && 0 <= f.wday < 7 && 0 <= f.yday <= 365 && f.isdst == 0
    ensures ValidDate(f.year + 1900, f.mon + 1, f.mday) && f.yday == DaysBeforeMonth(f.year + 1900, f.mon + 1) + f.mday - 1
  {
    var days, second := time / SECONDS_PER_DAY, time % SECONDS_PER_DAY;
    var date := CivilFromDays(days);
    DateFields(days, date.year - 1900, date.month - 1);
    hide CivilFromDays, DaysFromCivil, DaysBeforeMonth, ValidDate;
    Fields(second % 60, second / 60 % 60, second / 3600, date.day, date.month - 1, date.year - 1900,
           (days + 4) % 7, days - DaysFromCivil(date.year, 1, 1), 0)
  }

  /** Day 0 was a Thursday, and the days of the week follow each other. */
  lemma Weekdays(a: int, b: int)
    requires YearFits(a) && YearFits(b)
    ensures YearFits(0) && BrokenDown(0).wday == 4
    ensures a / SECONDS_PER_DAY + 1 == b / SECONDS_PER_DAY ==> BrokenDown(b).wday == if BrokenDown(a).wday == 6 then 0 else BrokenDown(a).wday + 1
    ensures a / SECONDS_PER_DAY == b / SECONDS_PER_DAY ==> BrokenDown(b).wday == BrokenDown(a).wday
  {
    EpochFits();
    hide CivilFromDays, DaysFromCivil, YearFits;
    WeekdayIs(0);
    WeekdayIs(a);
    WeekdayIs(b);
  }

  lemma WeekdayIs(time: int)
    requires YearFits(time)
    ensures BrokenDown(time).wday == (time / SECONDS_PER_DAY + 4) % 7
  {
    hide CivilFromDays, DaysFromCivil, YearFits;
  }

  lemma EpochFits()
    ensures YearFits(0)
  {
    hide CivilFromDays;
    assert DaysFromCivil(1970, 1, 1) == 0;
    CivilOfDays(1970, 1, 1);
  }

  lemma DateFields(days: int, year: int, mon: int)
    requires CivilFromDays(days).year == year + 1900 && CivilFromDays(days).month == mon + 1
    ensures var date := CivilFromDays(days); var yday := days - DaysFromCivil(date.year, 1, 1);
      && 0 <= mon < 12 && 1 <= date.day <= 31 && 0 <= yday <= 365
      && ValidDate(year + 1900, mon + 1, date.day) && yday == DaysBeforeMonth(year + 1900, mon + 1) + date.day - 1
  {
    var date := CivilFromDays(days);
    DaysOfCivil(days);
    DayInYear(date.year, date.month, date.day);
    DaysOfYear(days);
    hide CivilFromDays, DaysFromCivil, DaysBeforeMonth;
  }

  lemma DaysOfYear(days: int)
    ensures var date := CivilFromDays(days);
      1 <= date.month <= 12 && days - DaysFromCivil(date.year, 1, 1) == DaysBeforeMonth(date.year, date.month) + date.day - 1
  {
    var date := CivilFromDays(days);
    DaysOfCivil(days);
    hide CivilFromDays, DaysFromCivil, DaysBeforeMonth;
    DaysFromCivilCounts(date.year, date.month, date.day);
    DaysFromCivilCounts(date.year, 1, 1);
    assert DaysBeforeMonth(date.year, 1) == 0 by { MonthOne(date.year); }
  }

  lemma MonthOne(year: int)
    ensures DaysBeforeMonth(year, 1) == 0
  {
  }

  /** The time that fields with any values stand for. */
  function TimeOf(f: Fields): int {
    var year := f.year + 1900 + f.mon / 12;
    var days := DaysFromCivil(year, f.mon % 12 + 1, 1) + f.mday - 1;
    days * SECONDS_PER_DAY + f.hour * 3600 + f.min * 60 + f.sec
  }

  lemma DaysAdd(year: int, month: int, day: int)
    requires 1 <= month <= 12
    ensures DaysFromCivil(year, month, day) == DaysFromCivil(year, month, 1) + day - 1
  {
  }

  lemma DayPart(time: int)
    requires YearFits(time)
    ensures var f := BrokenDown(time); DaysFromCivil(f.year + 1900, f.mon + 1, f.mday) == time / SECONDS_PER_DAY
  {
    hide DaysFromCivil, CivilFromDays, DaysBeforeMonth, MonthLength;
    DaysOfCivil(time / SECONDS_PER_DAY);
  }

  lemma ClockPart(time: int)
    requires YearFits(time)
    ensures var f := BrokenDown(time); f.hour * 3600 + f.min * 60 + f.sec == time % SECONDS_PER_DAY
  {
    hide DaysFromCivil, CivilFromDays, DaysBeforeMonth, MonthLength;
    Clock(time % SECONDS_PER_DAY);
  }

  /** Breaking a time down and putting it together again gives the time. */
  lemma TimeOfBrokenDown(time: int)
    requires YearFits(time)
    ensures TimeOf(BrokenDown(time)) == time
  {
    var f := BrokenDown(time);
    DayPart(time);
    ClockPart(time);
    hide *;
    DaysAdd(f.year + 1900, f.mon + 1, f.mday);
    assert f.mon / 12 == 0 && f.mon % 12 == f.mon;
    TimeOfInRange(f);
  }

  lemma TimeOfInRange(f: Fields)
    requires 0 <= f.mon < 12
    ensures TimeOf(f) == (DaysFromCivil(f.year + 1900, f.mon + 1, 1) + f.mday - 1) * SECONDS_PER_DAY + (f.hour * 3600 + f.min * 60 + f.sec)
  {
  }

  lemma Clock(second: int)
    requires 0 <= second < SECONDS_PER_DAY
    ensures second / 3600 * 3600 + second / 60 % 60 * 60 + second % 60 == second
  {
    var m := second / 60;
    assert second / 3600 == m / 60;
  }

  // ----- The code

  /** A `struct tm`. */
  class Tm {
    var sec: Int
    var min: Int
    var hour: Int
    var mday: Int
    var mon: Int
    var year: Int
    var wday: Int
    var yday: Int
    var isdst: Int

    function Value(): Fields reads this { Fields(sec, min, hour, mday, mon, year, wday, yday, isdst) }

    constructor (f: Fields)
      ensures Value() == f
    {
      sec, min, hour, mday, mon, year, wday, yday, isdst := f.sec, f.min, f.hour, f.mday, f.mon, f.year, f.wday, f.yday, f.isdst;
    }

    method Assign(f: Fields)
      modifies this
      ensures Value() == f
    {
      sec, min, hour, mday, mon, year, wday, yday, isdst := f.sec, f.min, f.hour, f.mday, f.mon, f.year, f.wday, f.yday, f.isdst;
    }
  }

  const WIDE := 0x1_0000_0000_0000

  /** days_from_civil in 64-bit and unsigned 32-bit arithmetic. */
  method ComputeDays(year: Long, month: Unsigned, day: Unsigned) returns (days: Long)
    requires -WIDE <= year <= WIDE && 1 <= month <= 12 && 1 <= day <= 31
    ensures days == DaysFromCivil(year, month, day) && -400 * WIDE <= days <= 400 * WIDE
  {
    var y: Long := if month <= 2 then year - 1 else year;
    var era: Long := FloorDiv(y, 400);
    var eraYears: Long := era * 400;
    var yearOfEra: Unsigned := y - eraYears;
    var months: Unsigned := if month > 2 then month - 3 else month + 9;
    var scaled: Unsigned := 153 * months + 2;
    var dayOfYear: Unsigned := scaled / 5 + day - 1;
    var yearDays: Unsigned := yearOfEra * 365 + yearOfEra / 4;
    var dayOfEra: Unsigned := yearDays - yearOfEra / 100 + dayOfYear;
    var eraDays: Long := era * 146097;
    var sum: Long := eraDays + dayOfEra;
    days := sum - 719468;
  }

  lemma CivilFits(days: int)
    requires -WIDE <= days <= WIDE
    ensures var date := CivilFromDays(days); -WIDE <= date.year <= WIDE && ValidDate(date.year, date.month, date.day)
  {
    DaysOfCivil(days);
    hide YearOfEra, CivilInYear, EraYearStart, MonthLength, CivilFromDays, ValidDate;
    var e, yearOfEra, dayOfYear := Parts(days);
    EraStartsGrow(yearOfEra);
    CivilOfParts(days, 400 * e + yearOfEra, e, yearOfEra, dayOfYear);
    MonthOfDay(400 * e + yearOfEra, dayOfYear);
  }

  /** The year and the day of the year, both counted from March. */
  method ComputeMarchYear(days: Long) returns (y: Long, dayOfYear: Unsigned)
    requires -WIDE <= days <= WIDE
    ensures CivilFromDays(days) == CivilInYear(y, dayOfYear) && dayOfYear <= 366 && -WIDE <= y <= WIDE
  {
    hide CivilInYear;
    var z: Long := days + 719468;
    var era: Long := FloorDiv(z, 146097);
    var eraDays: Long := era * 146097;
    var dayOfEra: Unsigned := z - eraDays;
    YearOfEraBrackets(dayOfEra);
    var yearOfEra: Unsigned := (dayOfEra - dayOfEra / 1460 + dayOfEra / 36524 - dayOfEra / 146096) / 365;
    var eraYears: Long := era * 400;
    y := yearOfEra + eraYears;
    var before: Unsigned := 365 * yearOfEra + yearOfEra / 4 - yearOfEra / 100;
    dayOfYear := dayOfEra - before;
    assert yearOfEra < 399 ==> EraYearStart(yearOfEra + 1) <= EraYearStart(yearOfEra) + 366;
  }

  /** civil_from_days in 64-bit and unsigned 32-bit arithmetic. */
  method ComputeCivil(days: Long) returns (year: Long, month: Unsigned, day: Unsigned)
    requires -WIDE <= days <= WIDE
    ensures Date(year, month, day) == CivilFromDays(days) && -WIDE <= year <= WIDE && ValidDate(year, month, day)
  {
    CivilFits(days);
    hide CivilFromDays, ValidDate;
    var y, dayOfYear := ComputeMarchYear(days);
    var monthPrime: Unsigned := (5 * dayOfYear + 2) / 153;
    day := dayOfYear - (153 * monthPrime + 2) / 5 + 1;
    month := if monthPrime < 10 then monthPrime + 3 else monthPrime - 9;
    year := if month <= 2 then y + 1 else y;
  }

  lemma TruncatedDay(timer: int)
    ensures var q, r := Quotient(timer, SECONDS_PER_DAY), Remainder(timer, SECONDS_PER_DAY);
      if r < 0 then timer / SECONDS_PER_DAY == q - 1 && timer % SECONDS_PER_DAY == r + SECONDS_PER_DAY
      else timer / SECONDS_PER_DAY == q && timer % SECONDS_PER_DAY == r
  {
    var q, r := Quotient(timer, SECONDS_PER_DAY), Remainder(timer, SECONDS_PER_DAY);
    if timer < 0 { TruncatedBounds(timer, SECONDS_PER_DAY); }
    DivUnique(timer, SECONDS_PER_DAY, if r < 0 then q - 1 else q);
  }

  method SplitTime(timer: Long) returns (days: Long, secondOfDay: Long)
    ensures days == timer / SECONDS_PER_DAY && secondOfDay == timer % SECONDS_PER_DAY && -WIDE < days < WIDE
  {
    TruncatedDay(timer);
    days := Quotient(timer, SECONDS_PER_DAY);
    secondOfDay := Remainder(timer, SECONDS_PER_DAY);
    if secondOfDay < 0 {
      days := days - 1;
      secondOfDay := secondOfDay + SECONDS_PER_DAY;
    }
  }

  /** floor_mod for weekdays. */
  method Weekday(days: Long) returns (w: Int)
    requires -WIDE < days < WIDE
    ensures w == (days + 4) % 7
  {
    var value: Long := days + 4;
    var r := Remainder(value, 7);
    if value < 0 { TruncatedBounds(value, 7); }
    DivUnique(value, 7, if r < 0 then Quotient(value, 7) - 1 else Quotient(value, 7));
    w := if r < 0 then r + 7 else r;
  }

  /** calendar_from_epoch: fills `out`, or leaves it alone when the year does not fit. */
  method CalendarFromEpoch(timer: Long, out: Tm) returns (ok: bool)
    modifies out
    ensures ok <==> YearFits(timer)
    ensures out.Value() == if ok then BrokenDown(timer) else old(out.Value())
  {
    hide CivilFromDays, DaysFromCivil, DaysBeforeMonth, MonthLength;
    var days, secondOfDay := SplitTime(timer);
    var year, month, day := ComputeCivil(days);
    var yearOffset: Long := year - 1900;
    if yearOffset < -0x8000_0000 || 0x7fff_ffff < yearOffset {
      return false;
    }
    ok := true;
    var yearStart := ComputeDays(year, 1, 1);
    var yday: Long := days - yearStart;
    ghost var f := BrokenDown(timer);
    assert f.mday == day && f.mon == month - 1 && f.year == yearOffset && f.yday == yday && f.wday == (days + 4) % 7;
    assert f.sec == secondOfDay % 60 && f.min == secondOfDay / 60 % 60 && f.hour == secondOfDay / 3600 && f.isdst == 0;
    hide BrokenDown;
    var w := Weekday(days);
    out.sec := secondOfDay % 60;
    out.min := secondOfDay / 60 % 60;
    out.hour := secondOfDay / 3600;
    out.mday := day;
    out.mon := month - 1;
    out.year := yearOffset;
    out.wday := w;
    out.yday := yday;
    out.isdst := 0;
  }

  /** The day and the second of the day that the fields add up to, before they are normalised. */
  method AddUp(tm: Tm) returns (days: Long, secondOfDay: Long)
    ensures days * SECONDS_PER_DAY + secondOfDay == TimeOf(tm.Value())
    ensures -0x400_0000_0000 <= days <= 0x400_0000_0000 && -0x1000_0000_0000 <= secondOfDay <= 0x1000_0000_0000
  {
    hide DaysFromCivil;
    var year: Long := tm.year + 1900;
    var monthIndex: Long := tm.mon;
    var monthYears: Long := FloorDiv(monthIndex, 12);
    year := year + monthYears;
    var month: Unsigned := monthIndex - monthYears * 12 + 1;
    var first := ComputeDays(year, month, 1);
    DaysNear(year, month);
    var dayAdjust: Long := tm.mday - 1;
    days := first + dayAdjust;
    var hours: Long := tm.hour * 3600;
    var minutes: Long := tm.min * 60;
    var wholeMinutes: Long := hours + minutes;
    secondOfDay := wholeMinutes + tm.sec;
  }

  lemma DaysNear(year: int, month: int)
    requires 1 <= month <= 12 && -0x1_0000_0000 <= year <= 0x1_0000_0000
    ensures -0x200_0000_0000 <= DaysFromCivil(year, month, 1) <= 0x200_0000_0000
  {
    CodeForm(year, month, 1);
  }

  /** mktime: normalises the fields and returns the time they stand for, or leaves them alone. */
  method MkTime(tm: Tm) returns (t: Long)
    modifies tm
    ensures YearFits(TimeOf(old(tm.Value()))) ==>
      t == TimeOf(old(tm.Value())) && tm.Value() == BrokenDown(t)
    ensures !YearFits(TimeOf(old(tm.Value()))) ==> t == -1 && tm.Value() == old(tm.Value())
  {
    hide BrokenDown, YearFits, TimeOf;
    var days, secondOfDay := AddUp(tm);
    var dayAdjust: Long := FloorDiv(secondOfDay, SECONDS_PER_DAY);
    var normalizedSecond: Long := secondOfDay - dayAdjust * SECONDS_PER_DAY;
    days := days + dayAdjust;
    var wholeDays: Long := days * SECONDS_PER_DAY;
    var total: Long := wholeDays + normalizedSecond;
    var normalized := new Tm(tm.Value());
    var ok := CalendarFromEpoch(total, normalized);
    if !ok {
      return -1;
    }
    tm.Assign(normalized.Value());
    return total;
  }

  /** The fields that mktime writes back are ones that it leaves as they are. */
  lemma MkTimeFixedPoint(f: Fields)
    requires YearFits(TimeOf(f))
    ensures var g := BrokenDown(TimeOf(f)); TimeOf(g) == TimeOf(f) && YearFits(TimeOf(g)) && BrokenDown(TimeOf(g)) == g
  {
    hide BrokenDown, YearFits, TimeOf;
    TimeOfBrokenDown(TimeOf(f));
  }

  /** Different times have different fields. */
  lemma BrokenDownInjective(a: int, b: int)
    requires YearFits(a) && YearFits(b) && BrokenDown(a) == BrokenDown(b)
    ensures a == b
  {
    hide BrokenDown, YearFits, TimeOf;
    TimeOfBrokenDown(a);
    TimeOfBrokenDown(b);
  }

  /** mktime of gmtime is the time, for every time whose year fits. */
  method GmTimeThenMkTime(timer: Long, tm: Tm) returns (t: Long)
    requires YearFits(timer)
    modifies tm
    ensures t == timer && tm.Value() == BrokenDown(timer)
  {
    hide BrokenDown, YearFits, TimeOf;
    TimeOfBrokenDown(timer);
    var ok := CalendarFromEpoch(timer, tm);
    t := MkTime(tm);
  }

  /** Out-of-range fields carry: a minute more is 60 seconds more, and so up to twelve months and a year. */
  lemma Carries(f: Fields, g: Fields)
    requires f.mday == g.mday
    requires (f.mon == g.mon && f.year == g.year && f.hour * 3600 + f.min * 60 + f.sec == g.hour * 3600 + g.min * 60 + g.sec)
      || (f.year * 12 + f.mon == g.year * 12 + g.mon && f.hour == g.hour && f.min == g.min && f.sec == g.sec)
    ensures TimeOf(f) == TimeOf(g)
  {
    assert f.year * 12 + f.mon == g.year * 12 + g.mon;
    assert f.mon % 12 == g.mon % 12 && f.year + f.mon / 12 == g.year + g.mon / 12;
  }
}
