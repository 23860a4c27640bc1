/**
 * Calendar dates from UNIX time, kernel/lib/civil.c.  The reference calendar counts
 * year by year and month by month; the code's closed arithmetic is proved to agree with it.
 * Division in the code truncates toward zero; Dafny's rounds down, so it is spelled out.
 */
module Civil {
  import opened Words

  // ----- the reference Gregorian calendar -----

  predicate Leap(y: int) { y % 4 == 0 && (y % 100 != 0 || y % 400 == 0) }

  function YearLength(y: int): int { if Leap(y) then 366 else 365 }

  function MonthLength(y: int, m: int): int
    requires 1 <= m <= 12
  {
    if m == 2 then (if Leap(y) then 29 else 28)
    else if m == 4 || m == 6 || m == 9 || m == 11 then 30
    else 31
  }

  /** Days from 1970-01-01 to the first day of year `y`, counted a year at a time. */
  function YearStart(y: int): int
    decreases if y < 1970 then 1970 - y else y - 1970
  {
    if y == 1970 then 0
    else if y > 1970 then YearStart(y - 1) + YearLength(y - 1)
    else YearStart(y + 1) - YearLength(y)
  }

  /** Days from the first day of the year to the first day of month `m`. */
  function MonthStart(y: int, m: int): int
    requires 1 <= m <= 12
    decreases m
  {
    if m == 1 then 0 else MonthStart(y, m - 1) + MonthLength(y, m - 1)
  }

  datatype Date = Date(year: int, month: int, day: int)

  predicate ValidDate(d: Date) { 1 <= d.month <= 12 && 1 <= d.day <= MonthLength(d.year, d.month) }

  function DayNumber(d: Date): int
    requires ValidDate(d)
  {
    YearStart(d.year) + MonthStart(d.year, d.month) + d.day - 1
  }

  predicate Earlier(a: Date, b: Date) {
    a.year < b.year || (a.year == b.year && (a.month < b.month || (a.month == b.month && a.day < b.day)))
  }

  lemma {:induction false} YearStartClosed(y: int)
    ensures YearStart(y) == 365 * (y - 1970) + (y - 1) / 4 - (y - 1) / 100 + (y - 1) / 400 - 477
    decreases if y < 1970 then 1970 - y else y - 1970
  {
    if y > 1970 {
      YearStartClosed(y - 1);
      LeapCount(y - 1);
    } else if y < 1970 {
      YearStartClosed(y + 1);
      LeapCount(y);
    }
  }

  /** The leap-day count rises by one exactly over a leap year. */
  lemma LeapCount(y: int)
    ensures y / 4 - y / 100 + y / 400 ==
            (y - 1) / 4 - (y - 1) / 100 + (y - 1) / 400 + (if Leap(y) then 1 else 0)
  {
    DivStep(y, 4);
    DivStep(y, 100);
    DivStep(y, 400);
    Divides(y, 4, 25);
    Divides(y, 100, 4);
  }

  lemma Divides(y: int, k: int, m: int)
    requires k > 0 && m > 0
    ensures y % (k * m) == 0 ==> y % k == 0
  {
    if y % (k * m) == 0 {
      var q := y / (k * m);
      assert y == k * (m * q) + 0;
      DivModUnique(y, k, m * q, 0);
    }
  }

  lemma DivStep(y: int, k: int)
    requires k == 4 || k == 100 || k == 400
    ensures y / k == (y - 1) / k + (if y % k == 0 then 1 else 0)
  {
  }

  lemma MonthTable(y: int)
    ensures var f := if Leap(y) then 1 else 0;
            && MonthStart(y, 1) == 0 && MonthStart(y, 2) == 31 && MonthStart(y, 3) == 59 + f
            && MonthStart(y, 4) == 90 + f && MonthStart(y, 5) == 120 + f && MonthStart(y, 6) == 151 + f
            && MonthStart(y, 7) == 181 + f && MonthStart(y, 8) == 212 + f && MonthStart(y, 9) == 243 + f
            && MonthStart(y, 10) == 273 + f && MonthStart(y, 11) == 304 + f && MonthStart(y, 12) == 334 + f
  {
    assert MonthStart(y, 3) == MonthStart(y, 2) + MonthLength(y, 2);
    assert MonthStart(y, 5) == MonthStart(y, 4) + MonthLength(y, 4);
    assert MonthStart(y, 7) == MonthStart(y, 6) + MonthLength(y, 6);
    assert MonthStart(y, 9) == MonthStart(y, 8) + MonthLength(y, 8);
    assert MonthStart(y, 11) == MonthStart(y, 10) + MonthLength(y, 10);
  }

  /** A day lies inside its year. */
  lemma DayInYear(d: Date)
    requires ValidDate(d)
    ensures YearStart(d.year) <= DayNumber(d) < YearStart(d.year) + YearLength(d.year)
  {
    MonthTable(d.year);
  }

  lemma YearStartNext(y: int)
    ensures YearStart(y + 1) == YearStart(y) + YearLength(y)
  {
  }

  lemma {:induction false} YearStartOrder(a: int, b: int)
    requires a <= b
    ensures YearStart(a) + 365 * (b - a) <= YearStart(b)
    decreases b - a
  {
    if a < b {
      YearStartOrder(a, b - 1);
      YearStartNext(b - 1);
    }
  }

  /** Day numbers follow calendar order, so a day number names one date. */
  lemma DayNumberOrder(a: Date, b: Date)
    requires ValidDate(a) && ValidDate(b) && Earlier(a, b)
    ensures DayNumber(a) < DayNumber(b)
  {
    if a.year < b.year {
      DayInYear(a);
      DayInYear(b);
      YearStartNext(a.year);
      YearStartOrder(a.year + 1, b.year);
    } else {
      MonthTable(a.year);
    }
  }

  lemma DayNumberInjective(a: Date, b: Date)
    requires ValidDate(a) && ValidDate(b) && DayNumber(a) == DayNumber(b)
    ensures a == b
  {
    if Earlier(a, b) {
      DayNumberOrder(a, b);
    } else if Earlier(b, a) {
      DayNumberOrder(b, a);
    }
  }

  // ----- the code -----

  /** C's division and remainder: toward zero. */
  function Quot(a: int, b: int): int
    requires b > 0
  {
    if a >= 0 then a / b else -((-a) / b)
  }

  function Rem(a: int, b: int): int
    requires b > 0
  {
    a - Quot(a, b) * b
  }

  /** The conversion to a signed 32-bit year. */
  function Int32(v: int): (r: int)
    ensures -0x8000_0000 <= r < 0x8000_0000
    ensures (-0x8000_0000 <= v < 0x8000_0000) <==> r == v
  {
    (v + 0x8000_0000) % TWO32 - 0x8000_0000
  }

  datatype Civil = Civil(year: int, month: int, day: int, hour: int, min: int, sec: int, wday: int)

  /** The day and the second of the day: the quotient is adjusted when the remainder is negative. */
  function DaysOf(t: int): int { if Rem(t, 86400) < 0 then Quot(t, 86400) - 1 else Quot(t, 86400) }

  function SecsOf(t: int): int { if Rem(t, 86400) < 0 then Rem(t, 86400) + 86400 else Rem(t, 86400) }

  /** The year (counted from March) of day `doe` of a 400-year era. */
  function YearOfEra(doe: int): int { (doe - doe / 1460 + doe / 36524 - doe / 146096) / 365 }

  /** Days before March 1 of March-year `y` of an era. */
  function EraYearStart(y: int): int { 365 * y + y / 4 - y / 100 }

  function EraOf(z: int): int { Quot(if z >= 0 then z else z - 146096, 146097) }

  /** The date part, with the year before its conversion to 32 bits. */
  function DateOf(days: int): Date {
    var z := days + 719468;
    var era := EraOf(z);
    var doe := z - era * 146097;
    var yoe := YearOfEra(doe);
    var doy := doe - EraYearStart(yoe);
    var mp := (5 * doy + 2) / 153;
    var month := if mp < 10 then mp + 3 else mp - 9;
    Date(yoe + era * 400 + (if month <= 2 then 1 else 0), month, doy - (153 * mp + 2) / 5 + 1)
  }

  /** `anx_civil_from_unix`. */
  function FromUnix(ts: int, offsetHours: int): Civil {
    var t := ts + offsetHours * 3600;
    var days, secs := DaysOf(t), SecsOf(t);
    var d := DateOf(days);
    Civil(Int32(d.year), d.month, d.day, secs / 3600, secs / 60 % 60, secs % 60, Rem(Rem(days, 7) + 11, 7))
  }

  // ----- the code meets the calendar -----

  lemma SplitDay(t: int)
    ensures t == DaysOf(t) * 86400 + SecsOf(t) && 0 <= SecsOf(t) < 86400
  {
  }

  /**
   * The year formula is exact: the era splits into centuries, four-year cycles and years,
   * and the three corrections undo the leap days before the day.
   */
  lemma YearOfEraExact(doe: int)
    requires 0 <= doe < 146097
    ensures var y := YearOfEra(doe);
            && 0 <= y < 400
            && 0 <= doe - EraYearStart(y) <= 365
            && (doe - EraYearStart(y) == 365 ==> Leap(y + 1))
  {
    if doe == 146096 {
      assert YearOfEra(doe) == 399;
    } else {
      var c, r := doe / 36524, doe % 36524;
      var q, s := r / 1461, r % 1461;
      assert 0 <= c < 4 && 0 <= q < 25 && doe / 146096 == 0;
      var t := if s == 1460 then 3 else s / 365;
      CycleDay(doe, c, q, s);
      var y := 100 * c + 4 * q + t;
      assert YearOfEra(doe) == y;
      CycleYear(c, q, t);
      assert doe - EraYearStart(y) == s - 365 * t;
      if s == 1460 {
        assert 1461 * q + 1460 < 36524;
        assert (y + 1) % 4 == 0 && (y + 1) % 100 != 0 by {
          assert y + 1 == 100 * c + 4 * (q + 1);
          assert q < 24;
        }
      }
    }
  }

  lemma CycleDay(doe: int, c: int, q: int, s: int)
    requires 0 <= c < 4 && 0 <= q < 25 && 0 <= s < 1461 && doe == 36524 * c + 1461 * q + s
    ensures doe / 1460 == 25 * c + q + (if 24 * c + q + s >= 1460 then 1 else 0)
  {
    assert doe == 1460 * (25 * c + q) + (24 * c + q + s);
  }

  lemma CycleYear(c: int, q: int, t: int)
    requires 0 <= c < 4 && 0 <= q < 25 && 0 <= t < 4
    ensures EraYearStart(100 * c + 4 * q + t) == 36524 * c + 1461 * q + 365 * t
  {
    var y := 100 * c + 4 * q + t;
    assert y == 4 * (25 * c + q) + t;
    assert y == 100 * c + (4 * q + t);
  }

  /** The month formula walks the months from March. */
  lemma MonthOfYear(doy: int)
    requires 0 <= doy <= 365
    ensures var mp := (5 * doy + 2) / 153;
            && 0 <= mp <= 11
            && doy - (153 * mp + 2) / 5 >= 0
            && doy - (153 * mp + 2) / 5 < (if mp == 11 then 29
                                          else if mp == 1 || mp == 3 || mp == 6 || mp == 8 then 30 else 31)
            && (mp == 11 && doy - (153 * mp + 2) / 5 == 28 ==> doy == 365)
  {
    var mp := (5 * doy + 2) / 153;
    assert 153 * mp <= 5 * doy + 2 < 153 * mp + 153;
  }

  /** Days from March 1 of civil year `y` to the epoch day count, closed form. */
  lemma MarchStart(y: int)
    ensures YearStart(y) + MonthStart(y, 3) == 365 * y + y / 4 - y / 100 + y / 400 - 719468
  {
    MonthTable(y);
    YearStartClosed(y);
    LeapCount(y);
  }

  lemma EraSplit(yoe: int, era: int)
    requires 0 <= yoe < 400
    ensures var y := yoe + era * 400;
            y / 4 == yoe / 4 + 100 * era && y / 100 == yoe / 100 + 4 * era && y / 400 == era
    ensures Leap(yoe + 1 + era * 400) <==> Leap(yoe + 1)
  {
    ShiftEra(yoe, era, 4, 100);
    ShiftEra(yoe, era, 100, 4);
    ShiftEra(yoe, era, 400, 1);
    ShiftEra(yoe + 1, era, 4, 100);
    ShiftEra(yoe + 1, era, 100, 4);
    ShiftEra(yoe + 1, era, 400, 1);
  }

  lemma ShiftEra(y: int, era: int, k: int, m: int)
    requires k > 0 && k * m == 400
    ensures (y + era * 400) / k == y / k + m * era && (y + era * 400) % k == y % k
  {
    assert era * 400 == k * (m * era);
    assert y + era * 400 == k * (y / k + m * era) + y % k;
    DivModUnique(y + era * 400, k, y / k + m * era, y % k);
  }

  lemma MarchOfEra(yoe: int, era: int)
    requires 0 <= yoe < 400
    ensures var y := yoe + era * 400;
            YearStart(y) + MonthStart(y, 3) == EraYearStart(yoe) + era * 146097 - 719468
  {
    EraSplit(yoe, era);
    MarchStart(yoe + era * 400);
  }

  lemma EraExact(z: int)
    ensures 0 <= z - EraOf(z) * 146097 < 146097
  {
  }

  /** The day number of a date given by its March-year and days since March 1. */
  lemma FromMarch(y: int, doy: int)
    requires 0 <= doy <= 365 && (doy == 365 ==> Leap(y + 1))
    ensures var mp := (5 * doy + 2) / 153;
            var month := if mp < 10 then mp + 3 else mp - 9;
            var d := Date(y + (if month <= 2 then 1 else 0), month, doy - (153 * mp + 2) / 5 + 1);
            ValidDate(d) && DayNumber(d) == YearStart(y) + MonthStart(y, 3) + doy
  {
    hide YearStart;
    MonthOfYear(doy);
    MonthTable(y);
    MonthTable(y + 1);
    YearStartNext(y);
  }

  /** For every day, past or future, the date is valid and its day number is that day. */
  lemma DateExact(days: int)
    ensures ValidDate(DateOf(days)) && DayNumber(DateOf(days)) == days
  {
    hide YearOfEra, EraOf, EraYearStart, ValidDate, DayNumber, YearStart, MonthStart, Leap;
    var z := days + 719468;
    EraExact(z);
    var era := EraOf(z);
    var doe := z - era * 146097;
    YearOfEraExact(doe);
    var yoe := YearOfEra(doe);
    EraSplit(yoe, era);
    MarchOfEra(yoe, era);
    var y := yoe + era * 400;
    var doy := doe - EraYearStart(yoe);
    assert y + 1 == yoe + 1 + era * 400;
    FromMarch(y, doy);
  }

  // The first and one past the last day whose year fits in 32 bits.
  const FIRST_DAY: int := -784353015833
  const END_DAY: int := 784351576777

  lemma DayRange()
    ensures FIRST_DAY == YearStart(-0x8000_0000) && END_DAY == YearStart(0x8000_0000)
  {
    hide YearStart;
    YearStartClosed(-0x8000_0000);
    YearStartClosed(0x8000_0000);
  }

  lemma YearFits(days: int)
    ensures var y := DateOf(days).year;
            (-0x8000_0000 <= y < 0x8000_0000) <==> FIRST_DAY <= days < END_DAY
  {
    hide DateOf, YearStart;
    DayRange();
    DateExact(days);
    var d := DateOf(days);
    DayInYear(d);
    YearStartNext(d.year);
    if d.year < -0x8000_0000 {
      YearStartOrder(d.year + 1, -0x8000_0000);
    } else {
      YearStartOrder(-0x8000_0000, d.year);
    }
    if d.year < 0x8000_0000 {
      YearStartOrder(d.year + 1, 0x8000_0000);
    } else {
      YearStartOrder(0x8000_0000, d.year);
    }
  }

  predicate FitsInt64(t: int) { -0x8000_0000_0000_0000 <= t < 0x8000_0000_0000_0000 }

  lemma WeekdayExact(days: int)
    ensures Rem(Rem(days, 7) + 11, 7) == (days + 4) % 7
  {
  }

  /**
   * The result names the day of the local time exactly when the day's year fits in 32 bits, and
   * then the 64-bit sum did not overflow; clock time and weekday are right wherever it does not.
   */
  lemma FromUnixExact(ts: int, offsetHours: int)
    ensures var c := FromUnix(ts, offsetHours);
            var days := (ts + offsetHours * 3600) / 86400;
            var d := Date(c.year, c.month, c.day);
            && (FIRST_DAY <= days < END_DAY <==> ValidDate(d) && DayNumber(d) == days)
            && (FIRST_DAY <= days < END_DAY ==> FitsInt64(ts + offsetHours * 3600))
            && 0 <= c.hour < 24 && 0 <= c.min < 60 && 0 <= c.sec < 60
            && ts + offsetHours * 3600 == days * 86400 + c.hour * 3600 + c.min * 60 + c.sec
            && c.wday == (days + 4) % 7
  {
    hide DateOf, YearStart, DayNumber, ValidDate, Rem, Quot, DaysOf, SecsOf;
    var t := ts + offsetHours * 3600;
    SplitDay(t);
    var days := t / 86400;
    assert DaysOf(t) == days;
    WeekdayExact(days);
    DateExact(days);
    YearFits(days);
    var c := FromUnix(ts, offsetHours);
    var d := Date(c.year, c.month, c.day);
    if ValidDate(d) && DayNumber(d) == days {
      DayNumberInjective(d, DateOf(days));
    }
  }

  /** Every date and clock time is read back from its own timestamp. */
  lemma RoundTrip(d: Date, hour: int, min: int, sec: int)
    requires ValidDate(d) && -0x8000_0000 <= d.year < 0x8000_0000
    requires 0 <= hour < 24 && 0 <= min < 60 && 0 <= sec < 60
    ensures var c := FromUnix(DayNumber(d) * 86400 + hour * 3600 + min * 60 + sec, 0);
            Date(c.year, c.month, c.day) == d && c.hour == hour && c.min == min && c.sec == sec
  {
    hide DateOf, YearStart, DayNumber, ValidDate;
    var days := DayNumber(d);
    var t := days * 86400 + hour * 3600 + min * 60 + sec;
    SplitDay(t);
    assert DaysOf(t) == days && SecsOf(t) == hour * 3600 + min * 60 + sec;
    DateExact(days);
    DayNumberInjective(d, DateOf(days));
  }
}
