/** The redesigned dashboard (src/pages/RedesignedDashboard.tsx): the
    invoice-day reminder raised when the project list loads, and the three
    summary cards. */
module Dashboard {

  import opened Wrappers
  import opened Calendar
  import opened Records
  import Seqs
  import InvoiceReminder
  import InvoiceUtils

  /** The effect's filter: a truthy `billing_start_date` and `billing_cycle`. */
  predicate HasSchedule(p: Project)
  {
    p.billingStartDate.Some? && Truthy(p.billingCycle)
  }

  /** The projects the effect walks, in list order. */
  function Scheduled(projects: seq<Project>): (r: seq<Project>)
    ensures forall p :: p in r <==> p in projects && HasSchedule(p)
  {
    Seqs.Filter(projects, HasSchedule)
  }

  /** A scheduled project whose billing day is today. */
  predicate DueToday(p: Project, today: Date)
  {
    HasSchedule(p) && InvoiceReminder.IsInvoiceDay(p.billingStartDate.value, p.billingCycle.value, today)
  }

  /** The reminder effect, run with the loaded projects and the current day.
      It walks the scheduled projects in order and stops at the first one
      whose billing day is today, raising the banner; otherwise it leaves the
      banner as it was. It never lowers the banner: only Dismiss does.
      `stoppedAt` is the position, among the scheduled projects, where the
      loop broke. */
  method ReminderEffect(projects: seq<Project>, today: Date, shown: bool) returns (shownAfter: bool, stoppedAt: Option<nat>)
    ensures shownAfter <==> shown || exists p :: p in projects && DueToday(p, today)
    ensures stoppedAt.Some? <==> exists p :: p in projects && DueToday(p, today)
    ensures stoppedAt.Some? ==> stoppedAt.value < |Scheduled(projects)|
    ensures stoppedAt.Some? ==> DueToday(Scheduled(projects)[stoppedAt.value], today)
    ensures stoppedAt.Some? ==> forall j :: 0 <= j < stoppedAt.value ==> !DueToday(Scheduled(projects)[j], today)
  {
    var scheduled := Scheduled(projects);
    shownAfter, stoppedAt := shown, None;
    var i := 0;
    while i < |scheduled|
      invariant 0 <= i <= |scheduled|
      invariant shownAfter == shown && stoppedAt.None?
      invariant forall j :: 0 <= j < i ==> !DueToday(scheduled[j], today)
    {
      var p := scheduled[i];
      if DueToday(p, today) {
        assert p in projects;
        shownAfter, stoppedAt := true, Some(i);
        return;
      }
      i := i + 1;
    }
    assert forall p :: p in projects && DueToday(p, today) ==> p in scheduled;
  }

  /** "Entries This Month" as written: entries whose month number equals the
      current month's, in any year. */
  function MonthOnlyEntries(entries: seq<TimeEntry>, today: Date): (r: seq<TimeEntry>)
    ensures forall e :: e in r <==> e in entries && e.date.month == today.month
  {
    Seqs.Filter(entries, (e: TimeEntry) => e.date.month == today.month)
  }

  /** "Entries This Month" as intended: entries dated in the current calendar
      month, that is from its first day up to, not including, the first day
      of the next month. */
  function ThisMonthEntries(entries: seq<TimeEntry>, today: Date): (r: seq<TimeEntry>)
    ensures forall e :: e in r <==> (e in entries
      && DayNumber(today) - today.day + 1 <= DayNumber(e.date) < DayNumber(NextMonthStart(today)))
  {
    var r := Seqs.Filter(entries, (e: TimeEntry) => e.date.year == today.year && e.date.month == today.month);
    assert forall e :: e in r <==> (e in entries
      && DayNumber(today) - today.day + 1 <= DayNumber(e.date) < DayNumber(NextMonthStart(today))) by {
      forall e: TimeEntry {
        SameMonthIffWindow(e.date, today);
      }
    }
    r
  }

  /** The card as written counts every entry the intended count counts. */
  lemma ThisMonthWithinMonthOnly(entries: seq<TimeEntry>, today: Date)
    ensures |ThisMonthEntries(entries, today)| <= |MonthOnlyEntries(entries, today)|
  {
    Seqs.FilterMonotone(entries, (e: TimeEntry) => e.date.month == today.month,
                        (e: TimeEntry) => e.date.year == today.year && e.date.month == today.month);
  }

  /** The card as written also counts an entry from the same month of the
      previous year, which lies outside the current month. */
  lemma MonthOnlyCountsLastYear(today: Date, e: TimeEntry)
    requires e.date == CivilDate(today.year - 1, today.month, 1)
    ensures |MonthOnlyEntries([e], today)| == 1
    ensures |ThisMonthEntries([e], today)| == 0
  {
    SameMonthIffWindow(e.date, today);
    assert e !in ThisMonthEntries([e], today);
    assert e in MonthOnlyEntries([e], today);
  }

  /** "Uninvoiced Projects": the number of projects with a billing start
      date, whatever their invoices. */
  function UninvoicedProjects(projects: seq<Project>): (r: nat)
    ensures r <= |projects|
  {
    |Seqs.Filter(projects, (p: Project) => p.billingStartDate.Some?)|
  }

  /** Every project that can raise the reminder, and every project the
      next-invoice list considers, is among those the card counts. */
  lemma UninvoicedCountsScheduled(projects: seq<Project>)
    ensures |Scheduled(projects)| <= UninvoicedProjects(projects)
    ensures |Seqs.Filter(projects, InvoiceUtils.Billable)| <= UninvoicedProjects(projects)
  {
    Seqs.FilterMonotone(projects, (p: Project) => p.billingStartDate.Some?, HasSchedule);
    Seqs.FilterMonotone(projects, (p: Project) => p.billingStartDate.Some?, InvoiceUtils.Billable);
  }
}
