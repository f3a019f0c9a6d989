/** `isInvoiceDay` (src/utils/invoiceReminder.ts): is a project's recurring
    billing day today? */
module InvoiceReminder {

  import opened Calendar

  /** Whole days from `start` to `today`: the floored millisecond difference
      divided by a day, which for midnights is the day-number difference. */
  function DaysSince(start: Date, today: Date): int
  {
    DayNumber(today) - DayNumber(start)
  }

  /** True when `today` is a billing day of a project billed on `cycle` since
      `start`. A start in the future never fires; `weekly` and `fortnightly`
      fire every 7 and 14 days; `monthly` fires on the same day of the month;
      any other cycle string never fires. */
  function IsInvoiceDay(start: Date, cycle: string, today: Date): (r: bool)
    ensures r ==> DayNumber(start) <= DayNumber(today)
    ensures r ==> cycle == "weekly" || cycle == "fortnightly" || cycle == "monthly"
  {
    var diff := DaysSince(start, today);
    if diff < 0 then false
    else if cycle == "weekly" then diff % 7 == 0
    else if cycle == "fortnightly" then diff % 14 == 0
    else if cycle == "monthly" then today.day == start.day
    else false
  }

  /** The day `k` whole periods of `period` days after `start`. */
  function PeriodsAfter(start: Date, period: nat, k: nat): Date
  {
    AddDays(start, period * k)
  }

  /** With a fixed period, a day fires exactly when it is a whole number of
      periods on from the start. */
  lemma FixedPeriodDays(start: Date, today: Date, period: nat)
    requires period > 0
    ensures (DaysSince(start, today) >= 0 && DaysSince(start, today) % period == 0)
      <==> exists k: nat :: PeriodsAfter(start, period, k) == today
  {
    var diff := DaysSince(start, today);
    if diff >= 0 && diff % period == 0 {
      var k := WholePeriods(diff, period);
      DayNumberInjective(PeriodsAfter(start, period, k), today);
    }
    if exists k: nat :: PeriodsAfter(start, period, k) == today {
      var k: nat :| PeriodsAfter(start, period, k) == today;
      Calendar.DivUnique(diff, period, k, 0);
    }
  }

  /** A non-negative multiple of `period` is `period` times its quotient. */
  lemma WholePeriods(diff: int, period: nat) returns (k: nat)
    requires period > 0 && diff >= 0 && diff % period == 0
    ensures period * k == diff
  {
    k := diff / period;
  }

  /** Weekly billing fires exactly on the days a whole number of weeks after
      the start. */
  lemma WeeklyDays(start: Date, today: Date)
    ensures IsInvoiceDay(start, "weekly", today) <==> exists k: nat :: PeriodsAfter(start, 7, k) == today
  {
    FixedPeriodDays(start, today, 7);
  }

  /** Fortnightly billing fires exactly on the days a whole number of
      fortnights after the start. */
  lemma FortnightlyDays(start: Date, today: Date)
    ensures IsInvoiceDay(start, "fortnightly", today) <==> exists k: nat :: PeriodsAfter(start, 14, k) == today
  {
    FixedPeriodDays(start, today, 14);
  }

  /** Every fortnightly billing day is also a weekly one. */
  lemma FortnightlyIsWeekly(start: Date, today: Date)
    ensures IsInvoiceDay(start, "fortnightly", today) ==> IsInvoiceDay(start, "weekly", today)
  {
    var diff := DaysSince(start, today);
    if diff >= 0 && diff % 14 == 0 {
      Calendar.DivUnique(diff, 7, 2 * (diff / 14), 0);
    }
  }

  /** Monthly billing fires on every later day that shares the start's day of
      the month, however many months have passed. */
  lemma MonthlyDays(start: Date, today: Date)
    ensures IsInvoiceDay(start, "monthly", today)
      <==> DayNumber(start) <= DayNumber(today) && today.day == start.day
  {
  }

  /** On the start day itself every known cycle fires. */
  lemma StartDayFires(start: Date, cycle: string)
    requires cycle == "weekly" || cycle == "fortnightly" || cycle == "monthly"
    ensures IsInvoiceDay(start, cycle, start)
  {
  }

  /** A start on the 31st never fires monthly in a month of 30 days or fewer. */
  lemma MonthlyMissesShortMonths(start: Date, today: Date)
    requires start.day == 31
    requires DaysInMonth(today.year, today.month) < 31
    ensures !IsInvoiceDay(start, "monthly", today)
  {
  }
}
