/** The timestamp arithmetic of `now_string`: a division-only conversion from
    Unix seconds to a Gregorian date and time of day, checked against a day
    count that simply adds up the lengths of years and months. */
module Calendar {

  datatype Date = Date(year: int, month: int, day: int)

  datatype Timestamp = Timestamp(date: Date, hour: int, minute: int, second: int)

  // ---------- The Gregorian calendar, by definition ----------

  predicate Leap(year: int) {
    year % 4 == 0 && (year % 100 != 0 || year % 400 == 0)
  }

  function YearLength(year: int): int {
    if Leap(year) then 366 else 365
  }

  function MonthLength(year: int, month: int): int {
    if month == 2 then if Leap(year) then 29 else 28
    else if month == 4 || month == 6 || month == 9 || month == 11 then 30
    else 31
  }

  predicate ValidDate(d: Date) {
    1 <= d.month <= 12 && 1 <= d.day <= MonthLength(d.year, d.month)
  }

  /** Days from 1 January 1970 to 1 January of `year`, one year at a time. */
  function DaysBeforeYear(year: int): int
    requires year >= 1970
    decreases year
  {
    if year == 1970 then 0 else DaysBeforeYear(year - 1) + YearLength(year - 1)
  }

  /** Days from 1 January to the first of `month`, one month at a time. */
  function DaysBeforeMonth(year: int, month: int): int
    requires 1 <= month <= 13
    decreases month
  {
    if month == 1 then 0 else DaysBeforeMonth(year, month - 1) + MonthLength(year, month - 1)
  }

  /** The number of days from 1 January 1970 to the date `d`. */
  function DayNumber(d: Date): int
    requires d.year >= 1970 && 1 <= d.month <= 12
  {
    DaysBeforeYear(d.year) + DaysBeforeMonth(d.year, d.month) + d.day - 1
  }

  /** The calendar day after `d`. */
  function NextDate(d: Date): Date {
    if d.day < MonthLength(d.year, d.month) then Date(d.year, d.month, d.day + 1)
    else if d.month < 12 then Date(d.year, d.month + 1, 1)
    else Date(d.year + 1, 1, 1)
  }

  // ---------- The code ----------

  /** Day count within a 400-year era to year of the era. */
  function YearOfEra(doe: int): int {
    (doe - doe / 1460 + doe / 36524 - doe / 146096) / 365
  }

  function CivilFromDays(days: int): Date {
    var z := days + 719468;
    var era := (if z >= 0 then z else z - 146096) / 146097;
    var doe := z - era * 146097;
    var yoe := YearOfEra(doe);
    var marchYear := yoe + era * 400;
    var doy := doe - (365 * yoe + yoe / 4 - yoe / 100);
    var monthPart := (5 * doy + 2) / 153;
    var day := doy - (153 * monthPart + 2) / 5 + 1;
    var month := monthPart + (if monthPart < 10 then 3 else -9);
    Date(marchYear + (if month <= 2 then 1 else 0), month, day)
  }

  function TimestampFromSeconds(seconds: int): Timestamp {
    var days := seconds / 86400;
    var daySeconds := seconds % 86400;
    Timestamp(CivilFromDays(days), daySeconds / 3600, (daySeconds % 3600) / 60, daySeconds % 60)
  }

  // ---------- Years of an era ----------

  /** Splits a day of the era into centuries, four-year cycles, years and the
      day of a year that starts in March. */
  lemma {:induction false} SplitDayOfEra(doe: int) returns (a: int, b: int, c: int, r: int)
    requires 0 <= doe < 146097
    ensures 0 <= a <= 3 && 0 <= b <= 24 && 0 <= c <= 3
    ensures doe == 36524 * a + 1461 * b + 365 * c + r
    ensures 0 <= r <= 364 || (r == 365 && c == 3 && (b < 24 || a == 3))
  {
    a := if doe / 36524 == 4 then 3 else doe / 36524;
    var inCentury := doe - 36524 * a;
    b := inCentury / 1461;
    var inCycle := inCentury - 1461 * b;
    c := if inCycle / 365 == 4 then 3 else inCycle / 365;
    r := inCycle - 365 * c;
  }

  /** The closed form recovers the year of the era. */
  lemma {:induction false} YearOfEraCorrect(doe: int, a: int, b: int, c: int, r: int)
    requires 0 <= a <= 3 && 0 <= b <= 24 && 0 <= c <= 3
    requires doe == 36524 * a + 1461 * b + 365 * c + r
    requires 0 <= r <= 364 || (r == 365 && c == 3 && (b < 24 || a == 3))
    ensures YearOfEra(doe) == 100 * a + 4 * b + c
    ensures doe - (365 * YearOfEra(doe) + YearOfEra(doe) / 4 - YearOfEra(doe) / 100) == r
  {
    var excess := 24 * a + b + 365 * c + r;
    var carry := if excess >= 1460 then 1 else 0;
    assert doe == 1460 * (25 * a + b + carry) + (excess - 1460 * carry);
    assert doe / 1460 == 25 * a + b + carry;
    var last := if doe == 146096 then 1 else 0;
    assert doe / 36524 == a + last;
    assert doe / 146096 == last;
    var n := 36500 * a + 1460 * b + 365 * c + r - carry;
    assert n == 365 * (100 * a + 4 * b + c) + (r - carry);
    var yoe := 100 * a + 4 * b + c;
    assert yoe / 4 == 25 * a + b;
    assert yoe / 100 == a;
  }

  // ---------- Closed forms of the definition ----------

  /** Days before a year, counted through the leap-year rule. */
  lemma {:induction false} DaysBeforeYearClosed(year: int)
    requires year >= 1970
    ensures DaysBeforeYear(year)
         == 365 * (year - 1970) + (year - 1) / 4 - (year - 1) / 100 + (year - 1) / 400 - 477
    decreases year
  {
    if year > 1970 {
      DaysBeforeYearClosed(year - 1);
      LeapStep(year - 1);
    }
  }

  /** The leap-year count grows by one at each leap year and nowhere else. */
  lemma {:induction false} LeapStep(y: int)
    ensures y / 4 - y / 100 + y / 400 - ((y - 1) / 4 - (y - 1) / 100 + (y - 1) / 400)
         == (if Leap(y) then 1 else 0)
  {
    var q := y / 400;
    var t := y % 400;
    InCycle(y, q, t);
    if t > 0 {
      InCycle(y - 1, q, t - 1);
      StepBy4(t);
      StepBy100(t);
    } else {
      InCycle(y - 1, q - 1, 399);
    }
  }

  lemma {:induction false} StepBy4(t: int)
    requires t > 0
    ensures t / 4 - (t - 1) / 4 == if t % 4 == 0 then 1 else 0
  {}

  lemma {:induction false} StepBy100(t: int)
    requires t > 0
    ensures t / 100 - (t - 1) / 100 == if t % 100 == 0 then 1 else 0
    ensures t % 100 == 0 ==> t % 4 == 0
  {
    var q, r := t / 100, t % 100;
    assert t == 100 * q + r && t == 4 * (25 * q) + r;
    if r == 0 {
      assert t - 1 == 100 * (q - 1) + 99;
    } else {
      assert t - 1 == 100 * q + (r - 1);
    }
  }

  lemma {:induction false} InCycle(y: int, q: int, t: int)
    requires y == 400 * q + t && 0 <= t < 400
    ensures y / 4 == 100 * q + t / 4 && y / 100 == 4 * q + t / 100 && y / 400 == q
    ensures y % 4 == t % 4 && y % 100 == t % 100 && y % 400 == t
  {}

  lemma {:induction false} MonthStarts(year: int)
    ensures DaysBeforeMonth(year, 1) == 0 && DaysBeforeMonth(year, 2) == 31
    ensures var s := MonthLength(year, 2) + 31;
            && DaysBeforeMonth(year, 3) == s && DaysBeforeMonth(year, 4) == s + 31
            && DaysBeforeMonth(year, 5) == s + 61 && DaysBeforeMonth(year, 6) == s + 92
            && DaysBeforeMonth(year, 7) == s + 122 && DaysBeforeMonth(year, 8) == s + 153
            && DaysBeforeMonth(year, 9) == s + 184 && DaysBeforeMonth(year, 10) == s + 214
            && DaysBeforeMonth(year, 11) == s + 245 && DaysBeforeMonth(year, 12) == s + 275
  {
    assert DaysBeforeMonth(year, 3) == 31 + MonthLength(year, 2);
    assert DaysBeforeMonth(year, 5) == DaysBeforeMonth(year, 3) + 61;
    assert DaysBeforeMonth(year, 7) == DaysBeforeMonth(year, 5) + 61;
    assert DaysBeforeMonth(year, 9) == DaysBeforeMonth(year, 7) + 62;
    assert DaysBeforeMonth(year, 11) == DaysBeforeMonth(year, 9) + 61;
  }

  // ---------- The conversion is right ----------

  /** The last steps of the conversion: day `doy` of the year starting on
      1 March of `marchYear`. */
  function FromMarchYear(marchYear: int, doy: int): Date {
    var monthPart := (5 * doy + 2) / 153;
    var day := doy - (153 * monthPart + 2) / 5 + 1;
    var month := monthPart + (if monthPart < 10 then 3 else -9);
    Date(marchYear + (if month <= 2 then 1 else 0), month, day)
  }

  /** Days from 1 March of year 0 to 1 March of year `y`. */
  function MarchStart(y: int): int {
    365 * y + y / 4 - y / 100 + y / 400
  }

  /** A day of a leap-extended March year, in the terms of the leap-year rule. */
  lemma {:induction false} ExtraDayIsLeap(era: int, a: int, b: int, c: int)
    requires 0 <= a <= 3 && 0 <= b <= 24 && c == 3 && (b < 24 || a == 3)
    ensures Leap(400 * era + 100 * a + 4 * b + c + 1)
  {
    var y := 400 * era + 100 * a + 4 * b + c + 1;
    assert y == 4 * (100 * era + 25 * a + b + 1);
    if b < 24 {
      assert y == 100 * (4 * era + a) + 4 * (b + 1);
    } else {
      assert y == 400 * (era + 1);
    }
  }

  lemma {:induction false} DivideBy4(q: int, r: int)
    requires 0 <= r < 4
    ensures (4 * q + r) / 4 == q
  {}

  lemma {:induction false} DivideBy100(q: int, r: int)
    requires 0 <= r < 100
    ensures (100 * q + r) / 100 == q
  {}

  lemma {:induction false} DivideBy400(q: int, r: int)
    requires 0 <= r < 400
    ensures (400 * q + r) / 400 == q
  {}

  lemma {:induction false} MarchStartOfEra(era: int, a: int, b: int, c: int)
    requires 0 <= a <= 3 && 0 <= b <= 24 && 0 <= c <= 3
    ensures MarchStart(400 * era + 100 * a + 4 * b + c)
         == 146097 * era + 36524 * a + 1461 * b + 365 * c
  {
    var y := 400 * era + 100 * a + 4 * b + c;
    assert y / 4 == 100 * era + 25 * a + b by { DivideBy4(100 * era + 25 * a + b, c); }
    assert y / 100 == 4 * era + a by { DivideBy100(4 * era + a, 4 * b + c); }
    assert y / 400 == era by { DivideBy400(era, 100 * a + 4 * b + c); }
  }

  lemma {:induction false} CivilSplit(days: int, era: int, yoe: int, doy: int)
    requires days >= 0 && era == (days + 719468) / 146097
    requires yoe == YearOfEra(days + 719468 - era * 146097)
    requires doy == days + 719468 - era * 146097 - (365 * yoe + yoe / 4 - yoe / 100)
    ensures CivilFromDays(days) == FromMarchYear(400 * era + yoe, doy)
  {}

  lemma {:induction false} FindMarchYear(days: int) returns (y: int, doy: int)
    requires days >= 0
    ensures CivilFromDays(days) == FromMarchYear(y, doy)
    ensures days + 719468 == MarchStart(y) + doy
    ensures 0 <= doy <= 364 || (doy == 365 && Leap(y + 1))
  {
    var era := (days + 719468) / 146097;
    var doe := days + 719468 - era * 146097;
    var a, b, c, r := SplitDayOfEra(doe);
    YearOfEraCorrect(doe, a, b, c, r);
    CivilSplit(days, era, YearOfEra(doe), r);
    MarchStartOfEra(era, a, b, c);
    y, doy := 400 * era + 100 * a + 4 * b + c, r;
    if r == 365 {
      ExtraDayIsLeap(era, a, b, c);
    }
  }

  /** Unix day zero lies in the March year 1969. */
  lemma {:induction false} MarchYearFrom1970(y: int, doy: int)
    requires 719468 <= MarchStart(y) + doy && 0 <= doy <= 365
    requires doy == 365 ==> Leap(y + 1)
    ensures y > 1969 || (y == 1969 && doy >= 306)
  {
    if y < 1969 {
      LeapStep(y + 1);
      MarchStartMonotone(y + 1, 1969);
    }
  }

  lemma {:induction false} MarchStartMonotone(x: int, y: int)
    requires x <= y
    ensures MarchStart(x) <= MarchStart(y)
    decreases y - x
  {
    if x < y {
      MarchStartMonotone(x + 1, y);
      LeapStep(x + 1);
    }
  }

  /** The month and the day of the month, written out as a table. */
  lemma {:induction false} MonthTable(y: int, doy: int)
    requires 0 <= doy <= 365
    ensures FromMarchYear(y, doy) ==
            if doy < 31 then Date(y, 3, doy + 1)
            else if doy < 61 then Date(y, 4, doy - 30)
            else if doy < 92 then Date(y, 5, doy - 60)
            else if doy < 122 then Date(y, 6, doy - 91)
            else if doy < 153 then Date(y, 7, doy - 121)
            else if doy < 184 then Date(y, 8, doy - 152)
            else if doy < 214 then Date(y, 9, doy - 183)
            else if doy < 245 then Date(y, 10, doy - 213)
            else if doy < 275 then Date(y, 11, doy - 244)
            else if doy < 306 then Date(y, 12, doy - 274)
            else if doy < 337 then Date(y + 1, 1, doy - 305)
            else Date(y + 1, 2, doy - 336)
  {}

  /** Twelve March-based months cover the year and agree with the month lengths. */
  lemma {:induction false} FromMarchYearCorrect(y: int, doy: int)
    requires y > 1969 || (y == 1969 && doy >= 306)
    requires 0 <= doy <= 364 || (doy == 365 && Leap(y + 1))
    ensures ValidDate(FromMarchYear(y, doy))
    ensures FromMarchYear(y, doy).year >= 1970
    ensures DayNumber(FromMarchYear(y, doy)) == MarchStart(y) + doy - 719468
  {
    MonthTable(y, doy);
    var year := if doy < 306 then y else y + 1;
    MonthStarts(year);
    DaysBeforeYearClosed(year);
    if doy < 306 {
      LeapStep(y);
    }
  }

  /** For every non-negative Unix day the conversion gives a real calendar date,
      and counting days year by year and month by month leads back to that day. */
  lemma {:induction false} CivilFromDaysCorrect(days: int)
    requires days >= 0
    ensures ValidDate(CivilFromDays(days)) && CivilFromDays(days).year >= 1970
    ensures DayNumber(CivilFromDays(days)) == days
  {
    var y, doy := FindMarchYear(days);
    MarchYearFrom1970(y, doy);
    FromMarchYearCorrect(y, doy);
  }

  // ---------- Consecutive days are consecutive dates ----------

  lemma {:induction false} NextDateCounts(d: Date)
    requires ValidDate(d) && d.year >= 1970
    ensures ValidDate(NextDate(d)) && NextDate(d).year >= 1970
    ensures DayNumber(NextDate(d)) == DayNumber(d) + 1
  {
    MonthStarts(d.year);
  }

  lemma {:induction false} YearsAreOrdered(x: int, y: int)
    requires 1970 <= x < y
    ensures DaysBeforeYear(x) + YearLength(x) <= DaysBeforeYear(y)
    decreases y
  {
    if x < y - 1 {
      YearsAreOrdered(x, y - 1);
    }
  }

  lemma {:induction false} MonthsAreOrdered(year: int, x: int, y: int)
    requires 1 <= x < y <= 13
    ensures DaysBeforeMonth(year, x) + MonthLength(year, x) <= DaysBeforeMonth(year, y)
    decreases y
  {
    if x < y - 1 {
      MonthsAreOrdered(year, x, y - 1);
    }
  }

  lemma {:induction false} DayOfYearBounds(d: Date)
    requires ValidDate(d)
    ensures 0 <= DaysBeforeMonth(d.year, d.month) + d.day - 1 < YearLength(d.year)
  {
    MonthStarts(d.year);
  }

  /** Two calendar dates with the same day count are the same date. */
  lemma {:induction false} DayNumberInjective(d: Date, e: Date)
    requires ValidDate(d) && ValidDate(e) && d.year >= 1970 && e.year >= 1970
    requires DayNumber(d) == DayNumber(e)
    ensures d == e
  {
    DayOfYearBounds(d);
    DayOfYearBounds(e);
    if d.year < e.year {
      YearsAreOrdered(d.year, e.year);
    } else if e.year < d.year {
      YearsAreOrdered(e.year, d.year);
    } else if d.month < e.month {
      MonthsAreOrdered(d.year, d.month, e.month);
    } else if e.month < d.month {
      MonthsAreOrdered(d.year, e.month, d.month);
    }
  }

  lemma {:induction false} NextDateIsNext(d: Date, e: Date)
    requires ValidDate(d) && ValidDate(e) && d.year >= 1970 && e.year >= 1970
    requires DayNumber(e) == DayNumber(d) + 1
    ensures e == NextDate(d)
  {
    NextDateCounts(d);
    DayNumberInjective(e, NextDate(d));
  }

  /** Day zero is 1 January 1970 ... */
  lemma {:induction false} FirstDay()
    ensures CivilFromDays(0) == Date(1970, 1, 1)
  {
    assert 719468 / 146097 == 4 && YearOfEra(135080) == 369;
  }

  /** ... and each following day is the next calendar date. */
  lemma {:induction false} ConsecutiveDays(days: int)
    requires days >= 0
    ensures CivilFromDays(days + 1) == NextDate(CivilFromDays(days))
  {
    CivilFromDaysCorrect(days);
    CivilFromDaysCorrect(days + 1);
    NextDateIsNext(CivilFromDays(days), CivilFromDays(days + 1));
  }

  lemma {:induction false} TimeOfDay(s: int)
    requires 0 <= s < 86400
    ensures 0 <= s / 3600 < 24 && 0 <= s % 3600 / 60 < 60 && 0 <= s % 60 < 60
    ensures 3600 * (s / 3600) + 60 * (s % 3600 / 60) + s % 60 == s
  {
    var t := s % 3600;
    assert s == 60 * (60 * (s / 3600) + t / 60) + t % 60;
  }

  /** The whole timestamp: a valid date, a time of day in range, and together
      exactly the elapsed seconds. */
  lemma {:induction false} TimestampCorrect(seconds: int)
    requires seconds >= 0
    ensures var t := TimestampFromSeconds(seconds);
            && ValidDate(t.date) && t.date.year >= 1970
            && 0 <= t.hour < 24 && 0 <= t.minute < 60 && 0 <= t.second < 60
            && 86400 * DayNumber(t.date) + 3600 * t.hour + 60 * t.minute + t.second == seconds
  {
    CivilFromDaysCorrect(seconds / 86400);
    TimeOfDay(seconds % 86400);
  }
}
