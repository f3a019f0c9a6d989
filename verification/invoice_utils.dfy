/** `getNextCycleDate` and `getNextInvoiceDue` (src/utils/invoiceUtils.ts):
    the next billing boundary of each project and the soonest of them. */
module InvoiceUtils {

  import opened Wrappers
  import opened Calendar
  import opened Records
  import Seqs
  import InvoiceReminder

  /** The cycles `getNextCycleDate` steps through; for any other cycle string
      its loop stops at once. */
  predicate Advances(cycle: string)
  {
    cycle == "monthly" || cycle == "fortnightly"
  }

  /** One turn of the loop: `setMonth(getMonth() + 1)` or
      `setDate(getDate() + 14)`. Either moves at least two weeks forward. */
  function CycleStep(d: Date, cycle: string): (r: Date)
    requires Advances(cycle)
    ensures DayNumber(d) + 14 <= DayNumber(r) <= DayNumber(d) + 31
  {
    if cycle == "monthly" then AddMonthJs(d) else AddDays(d, 14)
  }

  /** The `k`-th billing boundary: `start` advanced by `k` turns. */
  function Boundary(start: Date, cycle: string, k: nat): Date
    requires Advances(cycle)
    decreases k
  {
    if k == 0 then start else CycleStep(Boundary(start, cycle, k - 1), cycle)
  }

  /** `getNextCycleDate(start, cycle, today)`: while the date is not after
      today, advance it by one cycle. It terminates because every turn moves
      the date forward by at least two weeks. */
  function NextCycleDate(start: Date, cycle: string, today: Date): (r: Date)
    ensures Advances(cycle) ==> DayNumber(r) > DayNumber(today)
    ensures !Advances(cycle) ==> r == start
    ensures DayNumber(start) > DayNumber(today) ==> r == start
    ensures DayNumber(r) >= DayNumber(start)
    decreases DayNumber(today) - DayNumber(start)
  {
    if DayNumber(start) > DayNumber(today) then start
    else if Advances(cycle) then NextCycleDate(CycleStep(start, cycle), cycle, today)
    else start
  }

  /** The boundaries strictly increase. */
  lemma {:induction false} BoundariesIncrease(start: Date, cycle: string, j: nat, k: nat)
    requires Advances(cycle)
    requires j < k
    ensures DayNumber(Boundary(start, cycle, j)) < DayNumber(Boundary(start, cycle, k))
    decreases k
  {
    if j < k - 1 {
      BoundariesIncrease(start, cycle, j, k - 1);
    }
  }

  /** Counting from the first turn's result is counting one turn more from
      the start. */
  lemma {:induction false} BoundaryShift(start: Date, cycle: string, k: nat)
    requires Advances(cycle)
    ensures Boundary(CycleStep(start, cycle), cycle, k) == Boundary(start, cycle, k + 1)
    decreases k
  {
    if k > 0 {
      BoundaryShift(start, cycle, k - 1);
    }
  }

  /** The boundaries from the first turn's result, shifted by one, are the
      boundaries from the start: if the first `k` of them are on or before
      today and the start is too, so are the first `k + 1` from the start. */
  lemma ShiftedBoundariesNotAfter(start: Date, cycle: string, today: Date, k: nat)
    requires Advances(cycle)
    requires DayNumber(start) <= DayNumber(today)
    requires forall j: nat :: j < k ==> DayNumber(Boundary(CycleStep(start, cycle), cycle, j)) <= DayNumber(today)
    ensures forall j: nat :: j < k + 1 ==> DayNumber(Boundary(start, cycle, j)) <= DayNumber(today)
  {
    forall j: nat | j < k + 1
      ensures DayNumber(Boundary(start, cycle, j)) <= DayNumber(today)
    {
      if j > 0 {
        BoundaryShift(start, cycle, j - 1);
      }
    }
  }

  /** For monthly and fortnightly cycles the result is the first boundary
      strictly after today: it is boundary `k`, and every earlier boundary is
      on or before today. */
  lemma {:induction false} FirstBoundaryAfter(start: Date, cycle: string, today: Date) returns (k: nat)
    requires Advances(cycle)
    ensures NextCycleDate(start, cycle, today) == Boundary(start, cycle, k)
    ensures DayNumber(Boundary(start, cycle, k)) > DayNumber(today)
    ensures forall j: nat :: j < k ==> DayNumber(Boundary(start, cycle, j)) <= DayNumber(today)
    decreases DayNumber(today) - DayNumber(start)
  {
    if DayNumber(start) > DayNumber(today) {
      k := 0;
    } else {
      var n := CycleStep(start, cycle);
      var k' := FirstBoundaryAfter(n, cycle, today);
      k := k' + 1;
      assert NextCycleDate(start, cycle, today) == NextCycleDate(n, cycle, today);
      BoundaryShift(start, cycle, k');
      ShiftedBoundariesNotAfter(start, cycle, today, k');
    }
  }

  /** Fortnightly from a start on or before today: the result is a whole
      number of fortnights after the start and 1 to 14 days after today. */
  lemma {:induction false} FortnightlyNext(start: Date, today: Date)
    requires DayNumber(start) <= DayNumber(today)
    ensures var r := NextCycleDate(start, "fortnightly", today);
      (DayNumber(r) - DayNumber(start)) % 14 == 0
      && 1 <= DayNumber(r) - DayNumber(today) <= 14
    decreases DayNumber(today) - DayNumber(start)
  {
    var s := AddDays(start, 14);
    if DayNumber(s) <= DayNumber(today) {
      FortnightlyNext(s, today);
      var r := NextCycleDate(s, "fortnightly", today);
      var q := (DayNumber(r) - DayNumber(s)) / 14;
      assert DayNumber(r) - DayNumber(start) == 14 * (q + 1);
      Calendar.DivUnique(DayNumber(r) - DayNumber(start), 14, q + 1, 0);
    }
  }

  /** In a window of fourteen consecutive integers from `a`, `b` is the only
      multiple of 14, so `a` is one exactly when it is `b`. */
  lemma FortnightWindow(a: int, b: int)
    requires b % 14 == 0 && a <= b <= a + 13
    ensures a % 14 == 0 <==> a == b
  {
    if a % 14 == 0 {
      Calendar.DivUnique(a, 14, a / 14, 0);
      Calendar.DivUnique(b, 14, b / 14, 0);
    }
  }

  /** The day-number arithmetic behind the agreement below: with the start
      `s` before today `t` and the next boundary `n` a whole number of
      fortnights from `s` and 1 to 14 days after yesterday, today is a whole
      number of fortnights from `s` exactly when it is `n`. */
  lemma FortnightDays(s: int, t: int, n: int)
    requires s < t
    requires (n - s) % 14 == 0 && 1 <= n - (t - 1) <= 14
    ensures (t - s) % 14 == 0 <==> n == t
  {
    FortnightWindow(t - s, n - s);
  }

  /** What `isInvoiceDay` decides for a fortnightly cycle, in day numbers. */
  lemma FortnightlyInvoiceDay(start: Date, today: Date)
    ensures InvoiceReminder.IsInvoiceDay(start, "fortnightly", today)
      <==> DayNumber(today) - DayNumber(start) >= 0 && (DayNumber(today) - DayNumber(start)) % 14 == 0
  {
  }

  /** The agreement below when the start is today or later: both sides hold
      exactly when the start is today. */
  lemma FortnightlyAgreesNotStarted(start: Date, yesterday: Date, today: Date)
    requires DayNumber(yesterday) == DayNumber(today) - 1
    requires DayNumber(start) >= DayNumber(today)
    ensures InvoiceReminder.IsInvoiceDay(start, "fortnightly", today)
      <==> NextCycleDate(start, "fortnightly", yesterday) == today
  {
    FortnightlyInvoiceDay(start, today);
    assert NextCycleDate(start, "fortnightly", yesterday) == start;
    if DayNumber(start) == DayNumber(today) {
      DayNumberInjective(start, today);
    }
  }

  /** A date `r` a whole number of fortnights from `start` and 1 to 14 days
      after yesterday is today exactly when today is a whole number of
      fortnights from `start`. */
  lemma FortnightBoundaryIsToday(start: Date, r: Date, today: Date)
    requires DayNumber(start) < DayNumber(today)
    requires (DayNumber(r) - DayNumber(start)) % 14 == 0
    requires 1 <= DayNumber(r) - (DayNumber(today) - 1) <= 14
    ensures (DayNumber(today) - DayNumber(start)) % 14 == 0 <==> r == today
  {
    FortnightDays(DayNumber(start), DayNumber(today), DayNumber(r));
    if DayNumber(r) == DayNumber(today) {
      DayNumberInjective(r, today);
    }
  }

  /** The agreement below when the start is before today. */
  lemma FortnightlyAgreesStarted(start: Date, yesterday: Date, today: Date)
    requires DayNumber(yesterday) == DayNumber(today) - 1
    requires DayNumber(start) < DayNumber(today)
    ensures InvoiceReminder.IsInvoiceDay(start, "fortnightly", today)
      <==> NextCycleDate(start, "fortnightly", yesterday) == today
  {
    var r := NextCycleDate(start, "fortnightly", yesterday);
    var gap := DayNumber(today) - DayNumber(start);
    FortnightlyInvoiceDay(start, today);
    assert InvoiceReminder.IsInvoiceDay(start, "fortnightly", today) <==> gap % 14 == 0 by {
      assert gap >= 0;
    }
    FortnightlyNext(start, yesterday);
    FortnightBoundaryIsToday(start, r, today);
  }

  /** The agreement below, for any day `yesterday` just before `today`. */
  lemma FortnightlyAgreesFrom(start: Date, yesterday: Date, today: Date)
    requires DayNumber(yesterday) == DayNumber(today) - 1
    ensures InvoiceReminder.IsInvoiceDay(start, "fortnightly", today)
      <==> NextCycleDate(start, "fortnightly", yesterday) == today
  {
    if DayNumber(start) >= DayNumber(today) {
      FortnightlyAgreesNotStarted(start, yesterday, today);
    } else {
      FortnightlyAgreesStarted(start, yesterday, today);
    }
  }

  /** `getNextCycleDate` agrees with `isInvoiceDay` for fortnightly billing:
      today is a billing day exactly when the next boundary after yesterday
      is today. */
  lemma FortnightlyAgreesWithReminder(start: Date, today: Date)
    ensures InvoiceReminder.IsInvoiceDay(start, "fortnightly", today)
      <==> NextCycleDate(start, "fortnightly", AddDays(today, -1)) == today
  {
    FortnightlyAgreesFrom(start, AddDays(today, -1), today);
  }

  /** A monthly start on day 28 or earlier keeps its day of the month at every
      boundary, so every boundary is a monthly billing day for `isInvoiceDay`. */
  lemma {:induction false} MonthlyBoundariesAreInvoiceDays(start: Date, k: nat)
    requires start.day <= 28
    ensures Boundary(start, "monthly", k).day == start.day
    ensures InvoiceReminder.IsInvoiceDay(start, "monthly", Boundary(start, "monthly", k))
    decreases k
  {
    if k > 0 {
      var b := Boundary(start, "monthly", k - 1);
      MonthlyBoundariesAreInvoiceDays(start, k - 1);
      AddMonthJsLands(b);
      assert Boundary(start, "monthly", k) == AddMonthJs(b);
      BoundariesIncrease(start, "monthly", 0, k);
    }
  }

  /** What the reminder list holds for one project. */
  datatype DueInvoice = DueInvoice(projectName: string, dueDate: Date)

  /** The filter of `getNextInvoiceDue`: a truthy `is_active`,
      `billing_start_date` and `billing_cycle`. A missing `is_active` excludes
      the project. */
  predicate Billable(p: Project)
  {
    p.isActive == Some(true) && p.billingStartDate.Some? && Truthy(p.billingCycle)
  }

  /** The map step: the project's next cycle date. */
  function DueOf(p: Project, today: Date): DueInvoice
    requires Billable(p)
  {
    DueInvoice(p.name, NextCycleDate(p.billingStartDate.value, p.billingCycle.value, today))
  }

  /** A project that gets an entry: billable, with its next cycle date after
      today. */
  predicate IsUpcoming(p: Project, today: Date)
  {
    Billable(p) && DayNumber(DueOf(p, today).dueDate) > DayNumber(today)
  }

  /** One project's entry: its next cycle date when that is after today. */
  function EntryOf(today: Date): Project -> Option<DueInvoice>
  {
    p => if IsUpcoming(p, today) then Some(DueOf(p, today)) else None
  }

  /** Filter the billable projects, map each to its next cycle date, then keep
      the dates after today: one pass, in project order. */
  function Upcoming(projects: seq<Project>, today: Date): (r: seq<DueInvoice>)
    ensures |r| <= |projects|
    ensures forall d :: d in r ==> DayNumber(d.dueDate) > DayNumber(today)
    ensures forall p :: p in projects && IsUpcoming(p, today) ==> DueOf(p, today) in r
    ensures forall d :: d in r ==> exists p :: p in projects && IsUpcoming(p, today) && DueOf(p, today) == d
  {
    Seqs.CollectHolds(projects, EntryOf(today));
    Seqs.Collect(projects, EntryOf(today))
  }

  /** The entries keep project order: the list for two project lists one
      after the other is the list for the first followed by the list for the
      second, and one project gives its own entry exactly when it is upcoming. */
  lemma UpcomingConcat(a: seq<Project>, b: seq<Project>, today: Date)
    ensures Upcoming(a + b, today) == Upcoming(a, today) + Upcoming(b, today)
    ensures |a| == 1 ==> Upcoming(a, today) == if IsUpcoming(a[0], today) then [DueOf(a[0], today)] else []
  {
    Seqs.CollectConcat(a, b, EntryOf(today));
    if |a| == 1 {
      assert a[1..] == [];
    }
  }

  /** The sort key: the due date's day number. */
  function DueDay(d: DueInvoice): int
  {
    DayNumber(d.dueDate)
  }

  /** `getNextInvoiceDue(projects)` on day `today`: null when no billable
      project is due after today, otherwise the soonest due date, ties going
      to the project listed first. */
  function NextInvoiceDue(projects: seq<Project>, today: Date): (r: Option<DueInvoice>)
    ensures r.None? <==> Upcoming(projects, today) == []
    ensures r.Some? ==> r.value == Seqs.FirstMinimal(Upcoming(projects, today), DueDay)
  {
    var upcoming := Upcoming(projects, today);
    var sorted := Seqs.SortBy(upcoming, DueDay);
    if |sorted| > 0 then
      Seqs.SortHeadIsFirstMinimal(upcoming, DueDay);
      Some(sorted[0])
    else
      None
  }

  /** The reminder in project terms: nothing is reported exactly when no
      billable project has a next cycle date after today; otherwise the
      report is some billable project's next date, after today, and no later
      than any other billable project's next date after today. */
  lemma NextInvoiceDueIsSoonest(projects: seq<Project>, today: Date)
    ensures var r := NextInvoiceDue(projects, today);
      r.None? <==> forall p :: (p in projects && Billable(p)
        ==> DayNumber(DueOf(p, today).dueDate) <= DayNumber(today))
    ensures var r := NextInvoiceDue(projects, today);
      r.Some? ==> (DayNumber(r.value.dueDate) > DayNumber(today)
        && (exists p :: p in projects && Billable(p) && DueOf(p, today) == r.value)
        && forall p :: (p in projects && Billable(p)
          && DayNumber(DueOf(p, today).dueDate) > DayNumber(today)
          ==> DayNumber(r.value.dueDate) <= DayNumber(DueOf(p, today).dueDate)))
  {
    var upcoming := Upcoming(projects, today);
    if upcoming == [] {
      assert forall d :: d !in upcoming;
    } else {
      var m := Seqs.FirstMinimal(upcoming, DueDay);
      assert m in upcoming;
      forall p | p in projects && IsUpcoming(p, today)
        ensures DayNumber(m.dueDate) <= DayNumber(DueOf(p, today).dueDate)
      {
        var i :| 0 <= i < |upcoming| && upcoming[i] == DueOf(p, today);
      }
    }
  }

  /** Ties go to the project listed first: the report is the entry of some
      upcoming project, and every upcoming project listed before it is due
      strictly later. */
  lemma NextInvoiceDueFirstListed(projects: seq<Project>, today: Date)
    ensures var r := NextInvoiceDue(projects, today);
      r.Some? ==> exists i0 :: (0 <= i0 < |projects| && IsUpcoming(projects[i0], today)
        && r.value == DueOf(projects[i0], today)
        && forall i :: 0 <= i < i0 && IsUpcoming(projects[i], today) ==> DueDay(DueOf(projects[i], today)) > DueDay(r.value))
  {
    var r := NextInvoiceDue(projects, today);
    if r.Some? {
      var m := r.value;
      var i0 := Seqs.CollectFirst(projects, EntryOf(today), m);
      var pre := Upcoming(projects[..i0], today);
      Seqs.FirstMinimalBeatsEarlier(pre, m, Upcoming(projects[i0 + 1..], today), DueDay);
      forall i | 0 <= i < i0 && IsUpcoming(projects[i], today)
        ensures DueDay(DueOf(projects[i], today)) > DueDay(m)
      {
        assert projects[i] in projects[..i0];
      }
    }
  }

  /** A weekly project, or one with any cycle other than monthly and
      fortnightly, whose start is on or before today is never reported. */
  lemma NonAdvancingNeverDue(projects: seq<Project>, today: Date, p: Project)
    requires p in projects && Billable(p)
    requires !Advances(p.billingCycle.value)
    requires DayNumber(p.billingStartDate.value) <= DayNumber(today)
    ensures NextInvoiceDue(projects, today) != Some(DueOf(p, today))
  {
  }
}
