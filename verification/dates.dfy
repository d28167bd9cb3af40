/** Calendar dates as the scripts use them: `new Date('YYYY-MM-DD')` values
    compared as instants and subtracted to whole days. A date is modelled
    by its civil fields and a day number counted from 1970-01-01. */
module Dates {

  datatype Date = Date(year: int, month: int, day: int)

  predicate Valid(d: Date)
  {
    1 <= d.month <= 12 && 1 <= d.day <= 31
  }

  /** Days since 1970-01-01 in the proleptic Gregorian calendar (the
      classic days-from-civil computation). */
  function DayNumber(d: Date): int
  {
    var y := if d.month <= 2 then d.year - 1 else d.year;
    var era := y / 400;
    var yoe := y - era * 400;
    var mp := if d.month > 2 then d.month - 3 else d.month + 9;
    var doy := (153 * mp + 2) / 5 + d.day - 1;
    var doe := yoe * 365 + yoe / 4 - yoe / 100 + doy;
    era * 146097 + doe - 719468
  }

  /** `a >= b` on the instants the two dates denote. */
  predicate OnOrAfter(a: Date, b: Date)
  {
    DayNumber(a) >= DayNumber(b)
  }

  /** Whole days from `a` to `b`; for midnight dates
      `Math.ceil((b - a) / 86400000)` is exactly this difference. */
  function DaysBetween(a: Date, b: Date): (r: int)
    ensures r >= 0 <==> OnOrAfter(b, a)
  {
    DayNumber(b) - DayNumber(a)
  }

  /** The Gregorian leap rule: every fourth year, except centuries not
      divisible by 400. */
  predicate IsLeap(y: int)
  {
    y % 4 == 0 && (y % 100 != 0 || y % 400 == 0)
  }

  function YearLength(y: int): int
  {
    if IsLeap(y) then 366 else 365
  }

  function DaysInMonth(y: int, m: int): int
    requires 1 <= m <= 12
  {
    if m == 2 then (if IsLeap(y) then 29 else 28)
    else if m == 4 || m == 6 || m == 9 || m == 11 then 30
    else 31
  }

  /** A date that exists in the calendar. */
  predicate Exists(d: Date)
  {
    1 <= d.month <= 12 && 1 <= d.day <= DaysInMonth(d.year, d.month)
  }

  /** The calendar's next day. */
  function NextDay(d: Date): (n: Date)
    requires Exists(d)
    ensures Exists(n)
  {
    if d.day < DaysInMonth(d.year, d.month) then Date(d.year, d.month, d.day + 1)
    else if d.month < 12 then Date(d.year, d.month + 1, 1)
    else Date(d.year + 1, 1, 1)
  }

  /** Days from the first of March opening a 400-year era to the first of
      March `n` years on. */
  function EraDays(n: int): int
  {
    n * 365 + n / 4 - n / 100
  }

  /** Each first of March is its era's start plus the era's years so far. */
  lemma MarchFirst(y: int)
    ensures DayNumber(Date(y, 3, 1)) == (y / 400) * 146097 + EraDays(y % 400) - 719468
  {
  }

  /** The quotient by 4 (by 100, by 400) grows by one exactly when `n + 1`
      is a multiple. */
  lemma QuotientStep4(n: int)
    ensures (n + 1) / 4 == n / 4 + (if (n + 1) % 4 == 0 then 1 else 0)
  {
  }

  lemma QuotientStep100(n: int)
    ensures (n + 1) / 100 == n / 100 + (if (n + 1) % 100 == 0 then 1 else 0)
  {
  }

  lemma QuotientStep400(y: int)
    ensures (y + 1) / 400 == y / 400 + (if (y + 1) % 400 == 0 then 1 else 0)
    ensures (y + 1) % 400 == (if y % 400 == 399 then 0 else y % 400 + 1)
  {
  }

  /** Within an era, year `n + 1` adds a leap day exactly when it is a
      fourth year that is not a century. */
  lemma EraStep(n: int)
    requires 0 <= n < 399
    ensures EraDays(n + 1) - EraDays(n) == (if (n + 1) % 4 == 0 && (n + 1) % 100 != 0 then 366 else 365)
  {
    QuotientStep4(n);
    QuotientStep100(n);
    if (n + 1) % 100 == 0 {
      assert (n + 1) % 4 == 0;
    }
  }

  /** Adding a multiple of 4 (of 100) leaves the remainder unchanged. */
  lemma AddMultiple4(a: int, r: int)
    ensures (4 * a + r) % 4 == r % 4
  {
  }

  lemma AddMultiple100(a: int, r: int)
    ensures (100 * a + r) % 100 == r % 100
  {
  }

  /** Inside an era, the leap rule only looks at the year within the era. */
  lemma LeapWithinEra(y: int)
    requires y % 400 != 0
    ensures IsLeap(y) <==> (y % 400) % 4 == 0 && (y % 400) % 100 != 0
  {
    var q, r := y / 400, y % 400;
    AddMultiple4(100 * q, r);
    AddMultiple100(4 * q, r);
  }

  /** The day count counts the days from the first of March of year `y`
      (March opens the year in the formula, so February's leap day ends
      it): `y`'s first of March to the next is `y + 1`'s year length. */
  lemma MarchToMarch(y: int)
    ensures DayNumber(Date(y + 1, 3, 1)) - DayNumber(Date(y, 3, 1)) == YearLength(y + 1)
  {
    MarchFirst(y);
    MarchFirst(y + 1);
    QuotientStep400(y);
    if y % 400 < 399 {
      EraStep(y % 400);
      LeapWithinEra(y + 1);
    } else {
      assert EraDays(399) == 145731;
    }
  }

  /** Days into the formula's year (which opens on the first of March)
      before the first of month `m`. */
  function MonthOffset(m: int): int
    requires 1 <= m <= 12
  {
    var mp := if m > 2 then m - 3 else m + 9;
    (153 * mp + 2) / 5
  }

  /** Every date is its year's first of March, plus the months before it,
      plus its day; January and February count in the previous year. */
  lemma FromMarch(d: Date)
    requires 1 <= d.month <= 12
    ensures DayNumber(d) == DayNumber(Date(if d.month <= 2 then d.year - 1 else d.year, 3, 1))
                            + MonthOffset(d.month) + d.day - 1
  {
  }

  /** Within a month, the next day is one day on. */
  lemma SameMonthStep(y: int, m: int, day: int)
    requires 1 <= m <= 12
    ensures DayNumber(Date(y, m, day + 1)) == DayNumber(Date(y, m, day)) + 1
  {
    FromMarch(Date(y, m, day));
    FromMarch(Date(y, m, day + 1));
  }

  /** The months from March to November, and January, are followed by the
      next month within the formula's year. */
  lemma MonthOffsetStep(y: int, m: int)
    requires 1 <= m <= 11 && m != 2
    ensures MonthOffset(m + 1) == MonthOffset(m) + DaysInMonth(y, m)
  {
  }

  lemma MonthEndStep(y: int, m: int)
    requires 1 <= m <= 11 && m != 2
    ensures DayNumber(Date(y, m + 1, 1)) == DayNumber(Date(y, m, DaysInMonth(y, m))) + 1
  {
    MonthOffsetStep(y, m);
    FromMarch(Date(y, m, DaysInMonth(y, m)));
    FromMarch(Date(y, m + 1, 1));
  }

  /** The last day of February is followed by the first of March. */
  lemma FebruaryEndStep(y: int)
    ensures DayNumber(Date(y, 3, 1)) == DayNumber(Date(y, 2, DaysInMonth(y, 2))) + 1
  {
    FromMarch(Date(y, 2, DaysInMonth(y, 2)));
    MarchToMarch(y - 1);
  }

  /** New Year's Eve is followed by the first of January. */
  lemma YearEndStep(y: int)
    ensures DayNumber(Date(y + 1, 1, 1)) == DayNumber(Date(y, 12, 31)) + 1
  {
    FromMarch(Date(y, 12, 31));
    FromMarch(Date(y + 1, 1, 1));
  }

  /** The day after an existing date is one day further on: within the
      month, across a month end, across February and across New Year. */
  lemma NextDayInMonth(d: Date)
    requires Exists(d) && d.day < DaysInMonth(d.year, d.month)
    ensures DayNumber(NextDay(d)) == DayNumber(d) + 1
  {
    SameMonthStep(d.year, d.month, d.day);
  }

  lemma NextDayAfterFebruary(d: Date)
    requires Exists(d) && d.month == 2 && d.day == DaysInMonth(d.year, 2)
    ensures DayNumber(NextDay(d)) == DayNumber(d) + 1
  {
    FebruaryEndStep(d.year);
  }

  lemma NextDayAfterMonthEnd(d: Date)
    requires Exists(d) && d.month != 2 && d.month < 12 && d.day == DaysInMonth(d.year, d.month)
    ensures DayNumber(NextDay(d)) == DayNumber(d) + 1
  {
    MonthEndStep(d.year, d.month);
  }

  lemma NextDayAfterYearEnd(d: Date)
    requires Exists(d) && d.month == 12 && d.day == 31
    ensures DayNumber(NextDay(d)) == DayNumber(d) + 1
  {
    YearEndStep(d.year);
  }

  lemma NextDayIsOneMore(d: Date)
    requires Exists(d)
    ensures DayNumber(NextDay(d)) == DayNumber(d) + 1
  {
    if d.day < DaysInMonth(d.year, d.month) {
      NextDayInMonth(d);
    } else if d.month == 2 {
      NextDayAfterFebruary(d);
    } else if d.month < 12 {
      NextDayAfterMonthEnd(d);
    } else {
      NextDayAfterYearEnd(d);
    }
  }

  /** The same date a year later lies 365 or 366 days on: 366 exactly when
      the February in between has a leap day. */
  lemma YearLater(y: int, m: int, day: int)
    requires 1 <= m <= 12
    ensures DayNumber(Date(y + 1, m, day)) - DayNumber(Date(y, m, day))
            == (if m <= 2 then YearLength(y) else YearLength(y + 1))
  {
    if m <= 2 {
      MarchToMarch(y - 1);
    } else {
      MarchToMarch(y);
    }
  }

  /** Counting days: one from a date to the next day, and a whole year
      from a date to the same date a year later, 366 exactly when a leap
      day falls in between. */
  lemma DaysBetweenNextDay(a: Date)
    requires Exists(a)
    ensures DaysBetween(a, NextDay(a)) == 1
  {
    NextDayIsOneMore(a);
  }

  lemma DaysBetweenYearLater(y: int, m: int, day: int)
    requires 1 <= m <= 12
    ensures var r := DaysBetween(Date(y, m, day), Date(y + 1, m, day));
            && (r == 365 || r == 366)
            && (r == 366 <==> IsLeap(if m <= 2 then y else y + 1))
  {
    YearLater(y, m, day);
  }

  /** Day counts add up along the way. */
  lemma DaysBetweenAdds(a: Date, b: Date, c: Date)
    ensures DaysBetween(a, b) + DaysBetween(b, c) == DaysBetween(a, c)
  {
  }

  /** The epoch is day zero. */
  lemma EpochIsDayZero()
    ensures DayNumber(Date(1970, 1, 1)) == 0
  {
    assert (153 * 10 + 2) / 5 == 306;
    assert 1969 / 400 == 4 && 1969 - 4 * 400 == 369;
    assert 369 / 4 == 92 && 369 / 100 == 3;
  }

  /** A date from the middle of a year: 23 July 2024 is day 19927. */
  lemma MidYearDayNumber()
    ensures DayNumber(Date(2024, 7, 23)) == 19927
  {
    assert (153 * 4 + 2) / 5 == 122;
    assert 2024 / 400 == 5 && 2024 - 5 * 400 == 24;
    assert 24 / 4 == 6 && 24 / 100 == 0;
  }

  /** The leap day of 2000 lies between 28 February and 1 March. */
  lemma LeapDay2000()
    ensures DayNumber(Date(2000, 3, 1)) - DayNumber(Date(2000, 2, 28)) == 2
  {
    assert (153 * 0 + 2) / 5 == 0 && (153 * 11 + 2) / 5 == 337;
    assert 2000 / 400 == 5 && 1999 / 400 == 4 && 1999 - 4 * 400 == 399;
    assert 399 / 4 == 99 && 399 / 100 == 3;
  }
}
