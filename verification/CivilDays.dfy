/** The proleptic Gregorian calendar: day numbers from dates and back, as the era arithmetic of the
    code does it, and as a count that walks years and months. Day 0 is 1 January 1970. */
module CivilDays {

  // ----- Integer operators of C

  type Long = x: int | -0x8000_0000_0000_0000 <= x < 0x8000_0000_0000_0000
  type Unsigned = x: int | 0 <= x < 0x1_0000_0000

  /** Division and remainder that truncate toward zero. */
  function Quotient(a: int, b: int): int
    requires 0 < b
  {
    if 0 <= a then a / b else -((-a) / b)
  }

  function Remainder(a: int, b: int): int
    requires 0 < b
  {
    a - Quotient(a, b) * b
  }

  lemma MulSigns(e: int, b: int)
    requires 0 < b
    ensures 1 <= e ==> b <= e * b && e <= e * b
    ensures e <= 0 ==> e * b <= 0 && e * b <= e
    ensures e <= -1 ==> e * b <= -b
  {
    if 1 <= e {
      NonNegative(e - 1, b);
      NonNegative(e, b - 1);
      assert (e - 1) * b == e * b - b && e * (b - 1) == e * b - e;
    } else {
      NonNegative(-e, b);
      NonNegative(-e, b - 1);
      assert (-e) * b == -(e * b) && (-e) * (b - 1) == -(e * b) + e;
      if e <= -1 {
        NonNegative(-e - 1, b);
        assert (-e - 1) * b == -(e * b) - b;
      }
    }
  }

  lemma NonNegative(a: int, b: int)
    requires 0 <= a && 0 <= b
    ensures 0 <= a * b
  {
  }

  lemma DivUnique(a: int, b: int, q: int)
    requires 0 < b && q * b <= a < q * b + b
    ensures a / b == q
  {
    var e := a / b - q;
    assert a == (a / b) * b + a % b;
    assert e * b == (a / b) * b - q * b;
    MulSigns(e, b);
  }

  lemma TruncatedBounds(a: int, b: int)
    requires a < 0 && 0 < b
    ensures var q := -((-a) / b); -b < a - q * b <= 0
  {
    var k := (-a) / b;
    assert -a == k * b + (-a) % b;
    assert (-k) * b == -(k * b);
  }

  /** Rounds down whatever the sign, from a division that truncates. */
  function FloorDiv(value: int, divisor: int): (q: int)
    requires 0 < divisor
    ensures q == value / divisor
  {
    var quotient := Quotient(value, divisor);
    assert if Remainder(value, divisor) < 0 then value / divisor == quotient - 1 else value / divisor == quotient by {
      if value < 0 { TruncatedBounds(value, divisor); }
      if Remainder(value, divisor) < 0 {
        assert (quotient - 1) * divisor == quotient * divisor - divisor;
        DivUnique(value, divisor, quotient - 1);
      } else if value < 0 {
        DivUnique(value, divisor, quotient);
      }
    }
    if Remainder(value, divisor) < 0 then quotient - 1 else quotient
  }

  predicate IsLeapYear(year: int) {
    Remainder(year, 4) == 0 && (Remainder(year, 100) != 0 || Remainder(year, 400) == 0)
  }

  // ----- The code's arithmetic

  /** Days before the month in a year that starts in March. */
  function MonthStart(month: int): (r: int)
    requires 1 <= month <= 12
  {
    (153 * (if month > 2 then month - 3 else month + 9) + 2) / 5
  }

  function DaysFromCivil(year: int, month: int, day: int): (days: int)
    requires 1 <= month <= 12
  {
    var y: int := if month <= 2 then year - 1 else year;
    var era: int := FloorDiv(y, 400);
    var yearOfEra: int := y - era * 400;
    var dayOfYear: int := MonthStart(month) + day - 1;
    var dayOfEra: int := yearOfEra * 365 + yearOfEra / 4 - yearOfEra / 100 + dayOfYear;
    era * 146097 + dayOfEra - 719468
  }

  datatype Date = Date(year: int, month: int, day: int)

  function YearOfEra(dayOfEra: int): int
    requires 0 <= dayOfEra <= 146096
  {
    (dayOfEra - dayOfEra / 1460 + dayOfEra / 36524 - dayOfEra / 146096) / 365
  }

  /** Days of the era before one of its years. */
  function EraYearStart(yearOfEra: int): (r: int)
    requires 0 <= yearOfEra <= 400
  {
    365 * yearOfEra + yearOfEra / 4 - yearOfEra / 100
  }

  function CivilFromDays(days: int): (date: Date) {
    var z := days + 719468;
    var era := FloorDiv(z, 146097);
    CivilInEra(era, z - era * 146097)
  }

  function CivilInEra(era: int, dayOfEra: int): (date: Date)
    requires 0 <= dayOfEra <= 146096
  {
    var yearOfEra := YearOfEra(dayOfEra);
    var y := yearOfEra + era * 400;
    YearOfEraBrackets(dayOfEra);
    CivilInYear(y, dayOfEra - EraYearStart(yearOfEra))
  }

  /** Month and day in a year that starts in March. */
  function CivilInYear(y: int, dayOfYear: int): (date: Date) {
    var monthPrime := (5 * dayOfYear + 2) / 153;
    var d := dayOfYear - (153 * monthPrime + 2) / 5 + 1;
    var m := if monthPrime < 10 then monthPrime + 3 else monthPrime - 9;
    Date(if m <= 2 then y + 1 else y, m, d)
  }

  // ----- The year of an era

  /** The numerator of the year estimate. */
  function Estimate(dayOfEra: int): int {
    dayOfEra - dayOfEra / 1460 + dayOfEra / 36524 - dayOfEra / 146096
  }

  lemma EstimateGrows(a: int, b: int)
    requires 0 <= a <= b
    ensures Estimate(a) <= Estimate(b)
  {
    assert a - a / 1460 <= b - b / 1460;
    var f, g := a / 36524, b / 36524;
    assert a / 146096 == f / 4 && b / 146096 == g / 4 && f <= g;
    assert f - f / 4 <= g - g / 4;
  }

  /** At the first and the last day of a year of the era the estimate is exact. */
  lemma EstimateAtStart(y: int)
    requires 0 <= y <= 399
    ensures Estimate(EraYearStart(y)) == 365 * y
  {
    var q, r, c, s := y / 4, y % 4, y / 100, y % 100;
    var e := EraYearStart(y);
    assert c == q / 25 && s / 4 == q - 25 * c;
    assert e == 1460 * q + (q + 365 * r - c) && 0 <= q + 365 * r - c < 1460;
    assert e == 36524 * c + (365 * s + s / 4) && 0 <= 365 * s + s / 4 < 36524;
    assert e / 1460 == q && e / 36524 == c && e / 146096 == 0;
  }

  lemma EstimateAtEnd(y: int)
    requires 1 <= y <= 400
    ensures Estimate(if y == 400 then 146096 else EraYearStart(y) - 1) < 365 * y
  {
    if y < 400 {
      var q, r, c, s := y / 4, y % 4, y / 100, y % 100;
      var e := EraYearStart(y) - 1;
      assert c == q / 25 && s / 4 == q - 25 * c;
      assert e == 1460 * q + (q + 365 * r - c - 1) && 0 <= q + 365 * r - c - 1 < 1460;
      assert e == 36524 * c + (365 * s + s / 4) - 1;
      assert e / 1460 == q && e / 36524 <= c && e / 146096 == 0;
    }
  }

  lemma EstimateOrders(a: int, b: int)
    requires 0 <= a && 0 <= b
    ensures Estimate(a) < Estimate(b) ==> a < b
  {
    if b <= a { EstimateGrows(b, a); }
  }

  /** The code's division finds the year that contains the day. */
  lemma YearOfEraBrackets(dayOfEra: int)
    requires 0 <= dayOfEra <= 146096
    ensures var y := YearOfEra(dayOfEra);
      0 <= y <= 399 && EraYearStart(y) <= dayOfEra < if y == 399 then 146097 else EraYearStart(y + 1)
  {
    var y := YearOfEra(dayOfEra);
    EstimateAtEnd(400);
    EstimateGrows(dayOfEra, 146096);
    EstimateGrows(0, dayOfEra);
    assert 365 * y <= Estimate(dayOfEra) < 365 * y + 365;
    if 1 <= y {
      EstimateAtEnd(y);
      EstimateOrders(EraYearStart(y) - 1, dayOfEra);
    }
    if y < 399 {
      EstimateAtStart(y + 1);
      EstimateOrders(dayOfEra, EraYearStart(y + 1));
    }
  }

  // ----- The count that walks years and months

  predicate Leap(year: int) { year % 4 == 0 && (year % 100 != 0 || year % 400 == 0) }

  lemma MultipleOf(a: int, b: int)
    requires 0 < b
    ensures Remainder(a, b) == 0 <==> a % b == 0
  {
    var q := Quotient(a, b);
    assert a == (a / b) * b + a % b;
    if a % b == 0 {
      assert (-(a / b)) * b == -((a / b) * b);
      DivUnique(-a, b, -(a / b));
    }
    if Remainder(a, b) == 0 {
      DivUnique(a, b, q);
    }
  }

  lemma LeapIsLeap(year: int)
    ensures IsLeapYear(year) <==> Leap(year)
  {
    MultipleOf(year, 4);
    MultipleOf(year, 100);
    MultipleOf(year, 400);
  }

  function YearLength(year: int): int { if Leap(year) then 366 else 365 }

  function MonthLength(year: int, month: int): int {
    if month == 2 then if Leap(year) then 29 else 28
    else if month == 4 || month == 6 || month == 9 || month == 11 then 30
    else 31
  }

  predicate ValidDate(year: int, month: int, day: int) {
    1 <= month <= 12 && 1 <= day <= MonthLength(year, month)
  }

  /** Days from 1 January 1970 to 1 January of the year, a year at a time. */
  function DaysBeforeYear(year: int): int
    decreases if year < 1970 then 1970 - year else year - 1970
  {
    if year == 1970 then 0
    else if 1970 < year then DaysBeforeYear(year - 1) + YearLength(year - 1)
    else DaysBeforeYear(year + 1) - YearLength(year)
  }

  /** Days of the year before the month, a month at a time. */
  function DaysBeforeMonth(year: int, month: int): int
    requires 1 <= month <= 12
    decreases month
  {
    if month == 1 then 0 else DaysBeforeMonth(year, month - 1) + MonthLength(year, month - 1)
  }

  function Count(year: int, month: int, day: int): int
    requires 1 <= month <= 12
  {
    DaysBeforeYear(year) + DaysBeforeMonth(year, month) + day - 1
  }

  /** 1 March of the year, in closed form. */
  function MarchFirst(year: int): int { 365 * year + year / 4 - year / 100 + year / 400 - 719468 }

  /** The era arithmetic is the closed form. */
  lemma EraForm(year: int, era: int, yearOfEra: int)
    requires year == 400 * era + yearOfEra && 0 <= yearOfEra < 400
    ensures year / 400 == era && year / 4 == 100 * era + yearOfEra / 4 && year / 100 == 4 * era + yearOfEra / 100
    ensures era * 146097 + EraYearStart(yearOfEra) - 719468 == MarchFirst(year)
  {
  }

  lemma CodeForm(year: int, month: int, day: int)
    requires 1 <= month <= 12
    ensures DaysFromCivil(year, month, day) == MarchFirst(if month <= 2 then year - 1 else year) + MonthStart(month) + day - 1
  {
    var y := if month <= 2 then year - 1 else year;
    EraForm(y, y / 400, y % 400);
  }

  lemma {:induction false} JanuaryFirst(year: int)
    ensures DaysBeforeYear(year) == MarchFirst(year - 1) + 306
    decreases if year < 1970 then 1970 - year else year - 1970
  {
    if 1970 < year {
      JanuaryFirst(year - 1);
      NextMarch(year - 1);
    } else if year < 1970 {
      JanuaryFirst(year + 1);
      NextMarch(year);
    }
  }

  lemma DivStep(n: int, b: int)
    requires 0 < b
    ensures n / b - (n - 1) / b == if n % b == 0 then 1 else 0
  {
    var q := n / b;
    assert n == q * b + n % b;
    if n % b == 0 {
      assert (q - 1) * b == q * b - b;
      DivUnique(n - 1, b, q - 1);
    } else {
      DivUnique(n - 1, b, q);
    }
  }

  lemma Hundreds(n: int)
    ensures (n % 400 == 0 ==> n % 100 == 0) && (n % 100 == 0 ==> n % 4 == 0)
  {
    if n % 100 == 0 {
      assert n == (n / 100) * 100;
      DivUnique(n, 4, (n / 100) * 25);
    }
    if n % 400 == 0 {
      assert n == (n / 400) * 400;
      DivUnique(n, 100, (n / 400) * 4);
    }
  }

  /** From one 1 March to the next is the length of the later year. */
  lemma NextMarch(year: int)
    ensures MarchFirst(year) == MarchFirst(year - 1) + YearLength(year)
  {
    DivStep(year, 4);
    DivStep(year, 100);
    DivStep(year, 400);
    Hundreds(year);
  }

  lemma MonthSums(year: int, month: int)
    requires 1 <= month <= 12
    ensures DaysBeforeMonth(year, month) == if month <= 2 then MonthStart(month) - 306 else YearLength(year) + MonthStart(month) - 306
  {
    var b2 := DaysBeforeMonth(year, 1) + MonthLength(year, 1);
    var b3 := b2 + MonthLength(year, 2);
    assert DaysBeforeMonth(year, 2) == b2 && DaysBeforeMonth(year, 3) == b3;
    assert DaysBeforeMonth(year, 4) == b3 + 31;
    assert DaysBeforeMonth(year, 5) == b3 + 61;
    assert DaysBeforeMonth(year, 6) == b3 + 92;
    assert DaysBeforeMonth(year, 7) == b3 + 122;
    assert DaysBeforeMonth(year, 8) == b3 + 153;
    assert DaysBeforeMonth(year, 9) == b3 + 184;
    assert DaysBeforeMonth(year, 10) == b3 + 214;
    assert DaysBeforeMonth(year, 11) == b3 + 245;
    assert DaysBeforeMonth(year, 12) == b3 + 275;
  }

  /** The code computes the count, for every date. */
  lemma DaysFromCivilCounts(year: int, month: int, day: int)
    requires 1 <= month <= 12
    ensures DaysFromCivil(year, month, day) == Count(year, month, day)
  {
    CodeForm(year, month, day);
    JanuaryFirst(year);
    MonthSums(year, month);
    NextMarch(year);
  }

  // ----- Inverses

  /** A valid date's day falls inside its March year. */
  lemma DayOfMarchYear(year: int, month: int, day: int)
    requires ValidDate(year, month, day)
    ensures var y := if month <= 2 then year - 1 else year; 0 <= MonthStart(month) + day - 1 < YearLength(y + 1)
    ensures (5 * (MonthStart(month) + day - 1) + 2) / 153 == if month > 2 then month - 3 else month + 9
  {
  }

  lemma ModPeriodic(era: int, n: int, k: int, b: int)
    requires 0 < b && 400 == k * b
    ensures (400 * era + n) % b == n % b
  {
    var a, q := 400 * era + n, k * era + n / b;
    assert n == (n / b) * b + n % b;
    assert q * b == (k * era) * b + (n / b) * b && (k * era) * b == (k * b) * era;
    DivUnique(a, b, q);
    assert a == (a / b) * b + a % b;
  }

  lemma LeapPeriodic(era: int, n: int)
    ensures YearLength(400 * era + n) == YearLength(n)
  {
    ModPeriodic(era, n, 100, 4);
    ModPeriodic(era, n, 4, 100);
    ModPeriodic(era, n, 1, 400);
  }

  lemma EraYearLength(n: int)
    requires 1 <= n <= 400
    ensures EraYearStart(n - 1) + YearLength(n) == if n == 400 then 146097 else EraYearStart(n)
  {
    DivStep(n, 4);
    DivStep(n, 100);
  }

  /** A day of a year of an era, put together and taken apart. */
  lemma InEra(era: int, yearOfEra: int, dayOfYear: int)
    requires 0 <= yearOfEra <= 399 && 0 <= dayOfYear < YearLength(400 * era + yearOfEra + 1)
    ensures 0 <= EraYearStart(yearOfEra) + dayOfYear <= 146096
    ensures CivilInEra(era, EraYearStart(yearOfEra) + dayOfYear) == CivilInYear(400 * era + yearOfEra, dayOfYear)
  {
    hide YearLength, YearOfEra, CivilInYear;
    LeapPeriodic(era, yearOfEra + 1);
    EraYearLength(yearOfEra + 1);
    if yearOfEra < 399 { EraStartsGrow(yearOfEra + 1); }
    YearOfEraUnique(EraYearStart(yearOfEra) + dayOfYear, yearOfEra);
  }

  lemma EraStartsGrow(n: int)
    requires 0 <= n <= 399
    ensures 0 <= EraYearStart(n) <= 146000
  {
  }

  lemma YearOfEraUnique(dayOfEra: int, y: int)
    requires 0 <= dayOfEra <= 146096 && 0 <= y <= 399
    requires EraYearStart(y) <= dayOfEra < if y == 399 then 146097 else EraYearStart(y + 1)
    ensures YearOfEra(dayOfEra) == y
  {
    EstimateAtStart(y);
    EstimateGrows(EraYearStart(y), dayOfEra);
    EstimateAtEnd(y + 1);
    EstimateGrows(dayOfEra, if y == 399 then 146096 else EraYearStart(y + 1) - 1);
  }

  /** Day numbers by era, year of the era and day of the year. */
  lemma DaysByEra(year: int, month: int, day: int, era: int, yearOfEra: int)
    requires 1 <= month <= 12 && 0 <= yearOfEra <= 399
    requires 400 * era + yearOfEra == if month <= 2 then year - 1 else year
    ensures DaysFromCivil(year, month, day) + 719468 == era * 146097 + (EraYearStart(yearOfEra) + (MonthStart(month) + day - 1))
  {
    hide MonthStart;
    DivUnique(400 * era + yearOfEra, 400, era);
  }

  lemma CivilByEra(days: int, era: int, dayOfEra: int)
    requires days + 719468 == era * 146097 + dayOfEra && 0 <= dayOfEra <= 146096
    ensures CivilFromDays(days) == CivilInEra(era, dayOfEra)
  {
    hide CivilInEra;
    DivUnique(days + 719468, 146097, era);
  }

  lemma CivilOfParts(days: int, y: int, era: int, yearOfEra: int, dayOfYear: int)
    requires y == 400 * era + yearOfEra && 0 <= yearOfEra <= 399 && 0 <= dayOfYear < YearLength(y + 1)
    requires days + 719468 == era * 146097 + (EraYearStart(yearOfEra) + dayOfYear)
    ensures CivilFromDays(days) == CivilInYear(y, dayOfYear)
  {
    hide *;
    assert YearLength(y + 1) == YearLength(400 * era + yearOfEra + 1);
    InEra(era, yearOfEra, dayOfYear);
    CivilByEra(days, era, EraYearStart(yearOfEra) + dayOfYear);
  }

  lemma EraOf(y: int) returns (era: int, yearOfEra: int)
    ensures y == 400 * era + yearOfEra && 0 <= yearOfEra <= 399
  {
    era, yearOfEra := y / 400, y % 400;
  }

  /** Every valid date comes back from its day number. */
  lemma CivilOfDays(year: int, month: int, day: int)
    requires ValidDate(year, month, day)
    ensures CivilFromDays(DaysFromCivil(year, month, day)) == Date(year, month, day)
  {
    assert 1 <= month <= 12;
    hide *;
    var y := if month <= 2 then year - 1 else year;
    var era, yearOfEra := EraOf(y);
    var dayOfYear, days := MonthStart(month) + day - 1, DaysFromCivil(year, month, day);
    DayOfMonth(year, month, day);
    DaysByEra(year, month, day, era, yearOfEra);
    CivilOfParts(days, y, era, yearOfEra, dayOfYear);
  }

  /** Every day number is some day of some year of some era. */
  lemma Parts(days: int) returns (era: int, yearOfEra: int, dayOfYear: int)
    ensures 0 <= yearOfEra <= 399 && 0 <= dayOfYear < YearLength(400 * era + yearOfEra + 1)
    ensures days + 719468 == era * 146097 + (EraYearStart(yearOfEra) + dayOfYear)
  {
    hide YearLength, EraYearStart, YearOfEra;
    era := (days + 719468) / 146097;
    var dayOfEra := days + 719468 - era * 146097;
    YearOfEraBrackets(dayOfEra);
    yearOfEra := YearOfEra(dayOfEra);
    dayOfYear := dayOfEra - EraYearStart(yearOfEra);
    LeapPeriodic(era, yearOfEra + 1);
    EraYearLength(yearOfEra + 1);
  }

  /** Every day number is that of the valid date computed for it. */
  lemma DaysOfCivil(days: int)
    ensures var date := CivilFromDays(days);
      ValidDate(date.year, date.month, date.day) && DaysFromCivil(date.year, date.month, date.day) == days
  {
    var era, yearOfEra, dayOfYear := Parts(days);
    var y := 400 * era + yearOfEra;
    var date := CivilInYear(y, dayOfYear);
    hide *;
    MonthOfDay(y, dayOfYear);
    CivilOfParts(days, y, era, yearOfEra, dayOfYear);
    DaysByEra(date.year, date.month, date.day, era, yearOfEra);
  }

  /** Month and day of a day of a March year are a valid date, the one that starts there. */
  lemma MonthOfDay(y: int, dayOfYear: int)
    requires 0 <= dayOfYear < YearLength(y + 1)
    ensures var date := CivilInYear(y, dayOfYear);
      && ValidDate(date.year, date.month, date.day) && MonthStart(date.month) + date.day - 1 == dayOfYear
      && y == if date.month <= 2 then date.year - 1 else date.year
  {
    var p := (5 * dayOfYear + 2) / 153;
    assert p == 0 || p == 1 || p == 2 || p == 3 || p == 4 || p == 5 || p == 6 || p == 7 || p == 8 || p == 9 || p == 10 || p == 11;
  }

  lemma DayOfMonth(year: int, month: int, day: int)
    requires ValidDate(year, month, day)
    ensures var y := if month <= 2 then year - 1 else year;
      var dayOfYear := MonthStart(month) + day - 1;
      CivilInYear(y, dayOfYear) == Date(year, month, day) && 0 <= dayOfYear < YearLength(y + 1)
  {
    DayOfMarchYear(year, month, day);
  }

  // ----- Order

  predicate Earlier(a: Date, b: Date) {
    a.year < b.year || (a.year == b.year && (a.month < b.month || (a.month == b.month && a.day < b.day)))
  }

  lemma {:induction false} YearsGrow(a: int, b: int)
    requires a <= b
    ensures DaysBeforeYear(a) + 365 * (b - a) <= DaysBeforeYear(b)
    decreases b - a
  {
    if a < b {
      YearsGrow(a, b - 1);
      JanuaryFirst(b);
      JanuaryFirst(b - 1);
      NextMarch(b - 1);
    }
  }

  lemma DayInYear(year: int, month: int, day: int)
    requires ValidDate(year, month, day)
    ensures 0 <= DaysBeforeMonth(year, month) + day - 1 < YearLength(year)
  {
    MonthSums(year, month);
  }

  /** Later dates have larger day numbers. */
  lemma Monotone(a: Date, b: Date)
    requires ValidDate(a.year, a.month, a.day) && ValidDate(b.year, b.month, b.day) && Earlier(a, b)
    ensures DaysFromCivil(a.year, a.month, a.day) < DaysFromCivil(b.year, b.month, b.day)
  {
    hide DaysFromCivil, DaysBeforeYear, YearLength;
    DaysFromCivilCounts(a.year, a.month, a.day);
    DaysFromCivilCounts(b.year, b.month, b.day);
    if a.year < b.year {
      hide DaysBeforeMonth;
      YearsGrow(a.year + 1, b.year);
      NextYear(a.year);
      DayInYear(a.year, a.month, a.day);
      DayInYear(b.year, b.month, b.day);
    } else {
      MonthSums(a.year, a.month);
      MonthSums(b.year, b.month);
    }
  }

  lemma NextYear(year: int)
    ensures DaysBeforeYear(year + 1) == DaysBeforeYear(year) + YearLength(year)
  {
    JanuaryFirst(year + 1);
    JanuaryFirst(year);
    NextMarch(year);
  }
}
