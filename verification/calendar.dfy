/**
  The fiscal calendar: Gregorian dates, their day numbers, year-month keys and the
  "months since" measure that divides elapsed time by a fixed 30.44-day month.
 */
module Calendar {

  datatype CivilDate = CivilDate(year: int, month: int, day: int)

  predicate IsLeapYear(y: int)
  {
    (y % 4 == 0 && y % 100 != 0) || y % 400 == 0
  }

  function DaysInMonth(y: int, m: int): (n: int)
    requires 1 <= m <= 12
    ensures 28 <= n <= 31
  {
    if m == 2 then (if IsLeapYear(y) then 29 else 28)
    else if m == 4 || m == 6 || m == 9 || m == 11 then 30
    else 31
  }

  /** A calendar date (`YYYY-MM-DD`) that exists in the proleptic Gregorian calendar. */
  type Date = d: CivilDate | 1 <= d.month <= 12 && 1 <= d.day <= DaysInMonth(d.year, d.month)
    witness CivilDate(2025, 7, 1)

  function YearLength(y: int): int
  {
    if IsLeapYear(y) then 366 else 365
  }

  /** Days from 0001-01-01 to January 1 of year `y`. */
  function DaysBeforeYear(y: int): int
  {
    365 * (y - 1) + (y - 1) / 4 - (y - 1) / 100 + (y - 1) / 400
  }

  /** Days from January 1 to the first day of month `m` of year `y`. */
  function DaysBeforeMonth(y: int, m: int): int
    requires 1 <= m <= 12
  {
    (if m > 2 && IsLeapYear(y) then 1 else 0) +
    (match m
     case 1 => 0   case 2 => 31  case 3 => 59   case 4 => 90
     case 5 => 120 case 6 => 151 case 7 => 181  case 8 => 212
     case 9 => 243 case 10 => 273 case 11 => 304 case _ => 334)
  }

  /**
    The position of a date on the time line, in days: what comparing two
    midnight timestamps (`getTime()`) compares.
   */
  function DayNumber(d: Date): int
  {
    DaysBeforeYear(d.year) + DaysBeforeMonth(d.year, d.month) + d.day - 1
  }

  /** Lexicographic order on (year, month, day). */
  predicate Before(a: Date, b: Date)
  {
    a.year < b.year || (a.year == b.year && (a.month < b.month || (a.month == b.month && a.day < b.day)))
  }

  lemma YearStep(y: int)
    ensures DaysBeforeYear(y + 1) == DaysBeforeYear(y) + YearLength(y)
  {
    assert y / 4 - (y - 1) / 4 == (if y % 4 == 0 then 1 else 0);
    assert y / 100 - (y - 1) / 100 == (if y % 100 == 0 then 1 else 0);
    assert y / 400 - (y - 1) / 400 == (if y % 400 == 0 then 1 else 0);
    if y % 400 == 0 {
      assert y % 100 == 0 && y % 4 == 0;
    } else if y % 100 == 0 {
      assert y % 4 == 0;
    }
  }

  lemma {:induction false} YearsIncrease(y1: int, y2: int)
    requires y1 < y2
    ensures DaysBeforeYear(y1) + YearLength(y1) <= DaysBeforeYear(y2)
    decreases y2 - y1
  {
    YearStep(y1);
    if y1 + 1 < y2 {
      YearsIncrease(y1 + 1, y2);
    }
  }

  lemma MonthsIncrease(y: int, m1: int, m2: int)
    requires 1 <= m1 < m2 <= 12
    ensures DaysBeforeMonth(y, m1) + DaysInMonth(y, m1) <= DaysBeforeMonth(y, m2)
  {
  }

  lemma MonthFitsInYear(y: int, m: int)
    requires 1 <= m <= 12
    ensures DaysBeforeMonth(y, m) + DaysInMonth(y, m) <= YearLength(y)
  {
  }

  lemma BeforeMeansEarlier(a: Date, b: Date)
    requires Before(a, b)
    ensures DayNumber(a) < DayNumber(b)
  {
    if a.year < b.year {
      MonthFitsInYear(a.year, a.month);
      YearsIncrease(a.year, b.year);
    } else if a.month < b.month {
      MonthsIncrease(a.year, a.month, b.month);
    }
  }

  /** Day numbers order dates exactly as the calendar does. */
  lemma DayNumberOrder(a: Date, b: Date)
    ensures DayNumber(a) < DayNumber(b) <==> Before(a, b)
    ensures DayNumber(a) == DayNumber(b) <==> a == b
  {
    if Before(a, b) {
      BeforeMeansEarlier(a, b);
    } else if a != b {
      assert Before(b, a);
      BeforeMeansEarlier(b, a);
    }
  }

  /** A year and a month, the unit the pitch report is keyed by. */
  datatype MonthKey = MonthKey(year: int, month: int)

  predicate ValidMonthKey(k: MonthKey)
  {
    1 <= k.month <= 12
  }

  /** Months since year 0, so that consecutive months have consecutive indices. */
  function MonthIndex(k: MonthKey): int
  {
    k.year * 12 + (k.month - 1)
  }

  function MonthAt(n: int): (k: MonthKey)
    ensures ValidMonthKey(k)
    ensures MonthIndex(k) == n
  {
    MonthKey(n / 12, n % 12 + 1)
  }

  lemma MonthIndexInjective(k1: MonthKey, k2: MonthKey)
    requires ValidMonthKey(k1) && ValidMonthKey(k2)
    ensures MonthIndex(k1) == MonthIndex(k2) <==> k1 == k2
    ensures MonthIndex(k1) < MonthIndex(k2) <==> k1.year < k2.year || (k1.year == k2.year && k1.month < k2.month)
  {
  }

  function MonthOf(d: Date): (k: MonthKey)
    ensures ValidMonthKey(k)
  {
    MonthKey(d.year, d.month)
  }

  function FirstDay(k: MonthKey): (d: Date)
    requires ValidMonthKey(k)
    ensures MonthOf(d) == k && d.day == 1
  {
    CivilDate(k.year, k.month, 1)
  }

  function LastDay(k: MonthKey): (d: Date)
    requires ValidMonthKey(k)
    ensures MonthOf(d) == k && d.day == DaysInMonth(k.year, k.month)
  {
    CivilDate(k.year, k.month, DaysInMonth(k.year, k.month))
  }

  /** The year `new Date(y, m, d)` builds its date in: a year from 0 to 99 stands for 1900 + y. */
  function FullYear(y: int): int
  {
    if 0 <= y <= 99 then 1900 + y else y
  }

  /** A date lies between the first and the last day of a month exactly when it is in that month. */
  lemma WithinMonth(d: Date, k: MonthKey)
    requires ValidMonthKey(k)
    ensures DayNumber(FirstDay(k)) <= DayNumber(d) <= DayNumber(LastDay(k)) <==> MonthOf(d) == k
  {
    DayNumberOrder(d, FirstDay(k));
    DayNumberOrder(LastDay(k), d);
  }

  /** A point in time: a date and the milliseconds elapsed since its midnight. */
  datatype Moment = Moment(date: Date, millisOfDay: int)

  type Instant = m: Moment | 0 <= m.millisOfDay < 86_400_000
    witness Moment(CivilDate(2025, 7, 1), 0)

  /** 30.44 days in milliseconds, the divisor as written in decimal. */
  const AverageMonthMillis: int := 2_630_016_000

  /**
    The double `30.44 * 24 * 60 * 60 * 1000` is not 2 630 016 000 but
    2 630 016 000 + 2^-21, because 30.44 has no exact binary form. Scaled by
    2^21 the divisor is the integer DivisorScaled.
   */
  const DivisorScale: int := 2_097_152
  const DivisorScaled: int := 5_515_543_314_432_001

  /** Milliseconds from midnight of `start` to `asOf`: `asOf.getTime() - start.getTime()`. */
  function Elapsed(start: Date, asOf: Instant): int
  {
    (DayNumber(asOf.date) - DayNumber(start)) * 86_400_000 + asOf.millisOfDay
  }

  /**
    `Math.floor((asOf - start) / (30.44 * 24 * 60 * 60 * 1000))` for `start` at a
    midnight, divided by the double the source computes for the divisor.
   */
  function MonthsSince(start: Date, asOf: Instant): int
  {
    (Elapsed(start, asOf) * DivisorScale) / DivisorScaled
  }

  /** The count is the floor of the elapsed time over the double divisor. */
  lemma MonthsSinceFloor(start: Date, asOf: Instant)
    ensures var e, m := Elapsed(start, asOf), MonthsSince(start, asOf);
      m * DivisorScaled <= e * DivisorScale < (m + 1) * DivisorScaled
  {
  }

  /**
    Counted in exact 30.44-day months, a positive span counts the months it
    strictly exceeds: a span of exactly k such months counts k - 1, because the
    double divisor is a hair above 30.44 days. A span that is not positive is
    floored. Both hold for spans up to 2^21 months (about 174 000 years).
   */
  lemma MonthsSinceAverageMonths(start: Date, asOf: Instant)
    requires -DivisorScale * AverageMonthMillis <= Elapsed(start, asOf) <= DivisorScale * AverageMonthMillis
    ensures var e, m := Elapsed(start, asOf), MonthsSince(start, asOf);
      e > 0 ==> m * AverageMonthMillis < e <= (m + 1) * AverageMonthMillis
    ensures var e, m := Elapsed(start, asOf), MonthsSince(start, asOf);
      e <= 0 ==> m * AverageMonthMillis <= e < (m + 1) * AverageMonthMillis
  {
    var e, m := Elapsed(start, asOf), MonthsSince(start, asOf);
    MonthsSinceFloor(start, asOf);
    FloorScaled(e, m);
  }

  /** The arithmetic of MonthsSinceAverageMonths, on the elapsed time `e` and its count `m`. */
  lemma FloorScaled(e: int, m: int)
    requires -DivisorScale * AverageMonthMillis <= e <= DivisorScale * AverageMonthMillis
    requires m * DivisorScaled <= e * DivisorScale < (m + 1) * DivisorScaled
    ensures e > 0 ==> m * AverageMonthMillis < e <= (m + 1) * AverageMonthMillis
    ensures e <= 0 ==> m * AverageMonthMillis <= e < (m + 1) * AverageMonthMillis
  {
    var a, s := AverageMonthMillis, DivisorScale;
    var ma, m1a := m * a, (m + 1) * a;
    assert m * DivisorScaled == ma * s + m;
    assert (m + 1) * DivisorScaled == m1a * s + (m + 1);
    if e > 0 {
      assert m >= 0;
      if m > 0 { MulCancel(ma, e, s); }
      assert m < s;
      assert e <= m1a;
    } else {
      assert m <= 0;
      assert ma <= e;
      assert e < m1a;
    }
  }

  /** `x * s < y * s` with a positive `s` gives `x < y`. */
  lemma MulCancel(x: int, y: int, s: int)
    requires s > 0 && x * s < y * s
    ensures x < y
  {
  }

  /**
    Between two midnights the count is taken over whole days: one 30.44-day month
    is 761 / 25 days, so `days` days count `floor(25 * days / 761)` months, one
    less when `25 * days` is a positive multiple of 761.
   */
  lemma MonthsSinceWholeDays(start: Date, asOf: Date)
    requires -63_000_000 <= DayNumber(asOf) - DayNumber(start) <= 63_000_000
    ensures var days := DayNumber(asOf) - DayNumber(start);
      MonthsSince(start, Moment(asOf, 0)) == if days > 0 then (days * 25 - 1) / 761 else (days * 25) / 761
  {
    var days := DayNumber(asOf) - DayNumber(start);
    var m := MonthsSince(start, Moment(asOf, 0));
    MonthsSinceAverageMonths(start, Moment(asOf, 0));
    assert Elapsed(start, Moment(asOf, 0)) == (days * 25) * 3_456_000;
    assert AverageMonthMillis == 761 * 3_456_000;
    WholeDaysCount(days * 25, m);
  }

  /** MonthsSinceAverageMonths after dividing both sides by 3 456 000 ms (one 25th of a day). */
  lemma WholeDaysCount(x: int, m: int)
    requires x > 0 ==> m * (761 * 3_456_000) < x * 3_456_000 <= (m + 1) * (761 * 3_456_000)
    requires x <= 0 ==> m * (761 * 3_456_000) <= x * 3_456_000 < (m + 1) * (761 * 3_456_000)
    ensures m == if x > 0 then (x - 1) / 761 else x / 761
  {
    var u := 3_456_000;
    assert (m * 761) * u == m * (761 * u) && ((m + 1) * 761) * u == (m + 1) * (761 * u);
    if x > 0 {
      MulCancel(m * 761, x, u);
      assert x <= (m + 1) * 761 by {
        if x > (m + 1) * 761 { MulCancel((m + 1) * 761, x, u); assert false; }
      }
    } else {
      assert m * 761 <= x by {
        if m * 761 > x { MulCancel(x, m * 761, u); }
      }
      MulCancel(x, (m + 1) * 761, u);
    }
  }

  /** A span of exactly k 30.44-day months, k from 1 to 2^21, counts k - 1. */
  lemma ExactMonthsCountOneLess(start: Date, asOf: Instant, k: int)
    requires 1 <= k <= DivisorScale && Elapsed(start, asOf) == k * AverageMonthMillis
    ensures MonthsSince(start, asOf) == k - 1
  {
    MonthsSinceAverageMonths(start, asOf);
    var m := MonthsSince(start, asOf);
  }

  /** MonthsSince never decreases as the later instant moves forward. */
  lemma MonthsSinceMonotone(start: Date, a: Instant, b: Instant)
    requires DayNumber(a.date) < DayNumber(b.date) || (a.date == b.date && a.millisOfDay <= b.millisOfDay)
    ensures MonthsSince(start, a) <= MonthsSince(start, b)
  {
    var ea, eb := Elapsed(start, a), Elapsed(start, b);
    var ma, mb := MonthsSince(start, a), MonthsSince(start, b);
    assert ea <= eb;
    assert ea * DivisorScale <= eb * DivisorScale;
    MonthsSinceFloor(start, a);
    MonthsSinceFloor(start, b);
    MulCancel(ma, mb + 1, DivisorScaled);
  }
}
