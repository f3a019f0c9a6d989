/** Proleptic Gregorian calendar dates and their day numbers.

    A date is kept as its civil triple (year, month 1..12, day of month), so
    that JavaScript's `getDate()`/`getMonth()` are field reads, and is ordered
    by its day number, the count of days since 0001-01-01 (which differs from
    `getTime() / 86400000` for a midnight only by a constant). `setDate(getDate() + k)` is
    `AddDays` and `setMonth(getMonth() + 1)` is `AddMonthJs`, with JavaScript's
    day-of-month overflow into the following month. */
module Calendar {

  predicate IsLeapYear(y: int)
  {
    y % 4 == 0 && (y % 100 != 0 || y % 400 == 0)
  }

  function DaysInMonth(y: int, m: int): (n: int)
    requires 1 <= m <= 12
    ensures 28 <= n <= 31
  {
    if m == 2 then (if IsLeapYear(y) then 29 else 28)
    else if m == 4 || m == 6 || m == 9 || m == 11 then 30
    else 31
  }

  datatype CivilDate = CivilDate(year: int, month: int, day: int)

  predicate ValidDate(d: CivilDate)
  {
    1 <= d.month <= 12 && 1 <= d.day <= DaysInMonth(d.year, d.month)
  }

  /** A calendar day that exists (what a `YYYY-MM-DD` column holds). */
  type Date = d: CivilDate | ValidDate(d) witness CivilDate(1970, 1, 1)

  function DaysInYear(y: int): int
  {
    if IsLeapYear(y) then 366 else 365
  }

  /** Days from the start of year 1 to the start of year `y` (negative for
      earlier years). */
  function DaysBeforeYear(y: int): int
    decreases if y >= 1 then y - 1 else 1 - y
  {
    if y == 1 then 0
    else if y > 1 then DaysBeforeYear(y - 1) + DaysInYear(y - 1)
    else DaysBeforeYear(y + 1) - DaysInYear(y)
  }

  /** Days in the months of year `y` before month `m`. */
  function DaysBeforeMonth(y: int, m: int): int
    requires 1 <= m <= 12
  {
    if m == 1 then 0 else DaysBeforeMonth(y, m - 1) + DaysInMonth(y, m - 1)
  }

  /** The days-from-civil conversion: day 0 is 0001-01-01. */
  function DayNumber(d: Date): int
  {
    DaysBeforeYear(d.year) + DaysBeforeMonth(d.year, d.month) + d.day - 1
  }

  lemma YearLength(y: int)
    ensures DaysBeforeYear(y + 1) == DaysBeforeYear(y) + DaysInYear(y)
  {
  }

  /** The twelve months fill the year. */
  lemma MonthsFillYear(y: int)
    ensures DaysBeforeMonth(y, 12) + DaysInMonth(y, 12) == DaysInYear(y)
  {
    var feb := DaysInMonth(y, 2);
    assert DaysBeforeMonth(y, 2) == 31;
    assert DaysBeforeMonth(y, 3) == 31 + feb;
    assert DaysBeforeMonth(y, 4) == 62 + feb;
    assert DaysBeforeMonth(y, 5) == 92 + feb;
    assert DaysBeforeMonth(y, 6) == 123 + feb;
    assert DaysBeforeMonth(y, 7) == 153 + feb;
    assert DaysBeforeMonth(y, 8) == 184 + feb;
    assert DaysBeforeMonth(y, 9) == 215 + feb;
    assert DaysBeforeMonth(y, 10) == 245 + feb;
    assert DaysBeforeMonth(y, 11) == 276 + feb;
    assert DaysBeforeMonth(y, 12) == 306 + feb;
  }

  /** Euclidean division is unique: a quotient and remainder in range are
      `y / k` and `y % k`. */
  lemma DivUnique(y: int, k: int, q: int, r: int)
    requires k > 0 && 0 <= r < k && y == k * q + r
    ensures y / k == q && y % k == r
  {
    var q', r' := y / k, y % k;
    assert y == k * q' + r' && 0 <= r' < k;
    if q > q' {
      MulAtLeast(k, q - q');
    } else if q < q' {
      MulAtLeast(k, q' - q);
    }
  }

  lemma {:induction false} MulAtLeast(k: int, t: int)
    requires k > 0 && t >= 1
    ensures k * t >= k
  {
    if t > 1 {
      MulAtLeast(k, t - 1);
      assert k * t == k * (t - 1) + k;
    }
  }

  /** The first day of the month after the month of `d`. */
  function NextMonthStart(d: Date): Date
  {
    if d.month == 12 then CivilDate(d.year + 1, 1, 1) else CivilDate(d.year, d.month + 1, 1)
  }

  /** The last day of the month before the month of `d`. */
  function PreviousMonthEnd(d: Date): Date
  {
    if d.month == 1 then CivilDate(d.year - 1, 12, 31)
    else CivilDate(d.year, d.month - 1, DaysInMonth(d.year, d.month - 1))
  }

  /** The next month starts `DaysInMonth` days after this month's first day. */
  lemma NextMonthStartDayNumber(d: Date)
    ensures DayNumber(NextMonthStart(d)) == DayNumber(d) - d.day + 1 + DaysInMonth(d.year, d.month)
  {
    if d.month == 12 {
      YearLength(d.year);
      MonthsFillYear(d.year);
    }
  }

  /** The previous month ends the day before this month's first day. */
  lemma PreviousMonthEndDayNumber(d: Date)
    ensures DayNumber(PreviousMonthEnd(d)) == DayNumber(d) - d.day
  {
    if d.month == 1 {
      YearLength(d.year - 1);
      MonthsFillYear(d.year - 1);
    }
  }

  /** A walk month by month to the date `k` days from `d`: the existence
      proof behind `AddDays`. */
  function WalkDays(d: Date, k: int): (r: Date)
    ensures DayNumber(r) == DayNumber(d) + k
    decreases if k >= 0 then k else -k
  {
    if k == 0 then d
    else if k > 0 then
      if d.day + k <= DaysInMonth(d.year, d.month) then CivilDate(d.year, d.month, d.day + k)
      else
        NextMonthStartDayNumber(d);
        WalkDays(NextMonthStart(d), k - (DaysInMonth(d.year, d.month) - d.day + 1))
    else
      if d.day + k >= 1 then CivilDate(d.year, d.month, d.day + k)
      else
        PreviousMonthEndDayNumber(d);
        WalkDays(PreviousMonthEnd(d), k + d.day)
  }

  /** `setDate(getDate() + k)`: the date `k` days later (earlier when `k` is
      negative), carrying across month and year ends. Day numbers identify
      dates, so this date is unique. */
  function AddDays(d: Date, k: int): (r: Date)
    ensures DayNumber(r) == DayNumber(d) + k
  {
    var w := WalkDays(d, k);
    DayNumbersIdentifyDates();
    var r: Date :| DayNumber(r) == DayNumber(d) + k;
    r
  }

  /** `setMonth(getMonth() + 1)`: the same day of the next month, or, when the
      next month is too short, that many days past its end (31 January becomes
      3 March in a common year). Either way the date moves forward by exactly
      the length of its month, which is how it is computed here;
      `AddMonthJsLands` shows where it lands. */
  function AddMonthJs(d: Date): (r: Date)
    ensures DayNumber(r) == DayNumber(d) + DaysInMonth(d.year, d.month)
  {
    AddDays(d, DaysInMonth(d.year, d.month))
  }

  /** Where `AddMonthJs` lands: the same day of the next month when that
      month has it, otherwise the overflow days into the month after. */
  lemma AddMonthJsLands(d: Date)
    ensures var n := NextMonthStart(d);
      d.day <= DaysInMonth(n.year, n.month) ==> AddMonthJs(d) == CivilDate(n.year, n.month, d.day)
    ensures var n := NextMonthStart(d);
      d.day > DaysInMonth(n.year, n.month) ==>
        AddMonthJs(d) == AddDays(NextMonthStart(n), d.day - DaysInMonth(n.year, n.month) - 1)
  {
    var n := NextMonthStart(d);
    var r := AddMonthJs(d);
    NextMonthStartDayNumber(d);
    assert DayNumber(r) == DayNumber(n) + d.day - 1;
    if d.day <= DaysInMonth(n.year, n.month) {
      var c: Date := CivilDate(n.year, n.month, d.day);
      DayNumberInjective(r, c);
    } else {
      NextMonthStartDayNumber(n);
      DayNumberInjective(r, AddDays(NextMonthStart(n), d.day - DaysInMonth(n.year, n.month) - 1));
    }
  }

  lemma DayNumbersIdentifyDates()
    ensures forall a: Date, b: Date :: DayNumber(a) == DayNumber(b) ==> a == b
  {
    forall a: Date, b: Date | DayNumber(a) == DayNumber(b) ensures a == b {
      DayNumberInjective(a, b);
    }
  }

  /** Different dates have different day numbers, so day numbers order dates. */
  lemma DayNumberInjective(a: Date, b: Date)
    requires DayNumber(a) == DayNumber(b)
    ensures a == b
  {
    DayNumberYearBounds(a);
    DayNumberYearBounds(b);
    if a.year < b.year {
      YearsIncrease(a.year + 1, b.year);
    } else if b.year < a.year {
      YearsIncrease(b.year + 1, a.year);
    } else if a.month < b.month {
      MonthsIncrease(a.year, a.month, b.month);
    } else if b.month < a.month {
      MonthsIncrease(a.year, b.month, a.month);
    }
  }

  /** A date's day number lies inside its year. */
  lemma DayNumberYearBounds(d: Date)
    ensures DaysBeforeYear(d.year) <= DayNumber(d) < DaysBeforeYear(d.year + 1)
  {
    MonthsIncrease(d.year, 1, d.month);
    MonthsIncrease(d.year, d.month, 12);
    MonthsFillYear(d.year);
    YearLength(d.year);
    if d.month < 12 {
      assert DaysBeforeMonth(d.year, d.month) + DaysInMonth(d.year, d.month) <= DaysBeforeMonth(d.year, 12);
    }
  }

  lemma {:induction false} YearsIncrease(y1: int, y2: int)
    requires y1 <= y2
    ensures DaysBeforeYear(y1) <= DaysBeforeYear(y2)
    decreases y2 - y1
  {
    if y1 < y2 {
      YearLength(y1);
      YearsIncrease(y1 + 1, y2);
    }
  }

  /** Within a year, a month ends no later than any later month starts. */
  lemma {:induction false} MonthsIncrease(y: int, m1: int, m2: int)
    requires 1 <= m1 <= m2 <= 12
    ensures m1 < m2 ==> DaysBeforeMonth(y, m1) + DaysInMonth(y, m1) <= DaysBeforeMonth(y, m2)
    ensures DaysBeforeMonth(y, m1) <= DaysBeforeMonth(y, m2)
    decreases m2 - m1
  {
    if m1 < m2 {
      MonthsIncrease(y, m1, m2 - 1);
    }
  }

  /** Two dates share a calendar month exactly when the first lies between
      the first day of the second's month and the first day of the month
      after it. */
  lemma SameMonthIffWindow(e: Date, d: Date)
    ensures (e.year == d.year && e.month == d.month) <==>
      (DayNumber(d) - d.day + 1 <= DayNumber(e) < DayNumber(NextMonthStart(d)))
  {
    MonthSpan(d);
    MonthSpan(e);
    if e.year != d.year || e.month != d.month {
      OutsideMonth(e, d);
    }
  }

  /** A date of another month lies before the month's first day or on or
      after the next month's first day. */
  lemma OutsideMonth(e: Date, d: Date)
    requires e.year != d.year || e.month != d.month
    ensures DayNumber(e) < DaysBeforeYear(d.year) + DaysBeforeMonth(d.year, d.month)
      || DayNumber(e) >= DaysBeforeYear(d.year) + DaysBeforeMonth(d.year, d.month) + DaysInMonth(d.year, d.month)
  {
    MonthSpan(d);
    MonthSpan(e);
    if e.year < d.year {
      YearsIncrease(e.year + 1, d.year);
      MonthsIncrease(d.year, 1, d.month);
    } else if e.year > d.year {
      YearsIncrease(d.year + 1, e.year);
      MonthsIncrease(e.year, 1, e.month);
    } else if e.month < d.month {
      MonthsIncrease(d.year, e.month, d.month);
    } else {
      MonthsIncrease(d.year, d.month, e.month);
    }
  }

  /** Where a month lies among the day numbers: it starts after the earlier
      months of its year and ends, at the latest, where the next year
      begins. */
  lemma MonthSpan(d: Date)
    ensures DayNumber(d) - d.day + 1 == DaysBeforeYear(d.year) + DaysBeforeMonth(d.year, d.month)
    ensures DayNumber(NextMonthStart(d)) == DaysBeforeYear(d.year) + DaysBeforeMonth(d.year, d.month) + DaysInMonth(d.year, d.month)
    ensures DaysBeforeYear(d.year) + DaysBeforeMonth(d.year, d.month) + DaysInMonth(d.year, d.month) <= DaysBeforeYear(d.year + 1)
  {
    NextMonthStartDayNumber(d);
    MonthsIncrease(d.year, d.month, 12);
    MonthsFillYear(d.year);
    YearLength(d.year);
  }
}
