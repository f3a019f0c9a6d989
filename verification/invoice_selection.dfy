/** The entry selection and totals shared by the invoice form
    (src/components/InvoiceForm.tsx, src/components/InvoiceForm.jsx) and the
    regeneration dialog (src/components/RegenerateInvoiceModal.tsx): the
    entries of one project inside an inclusive date range, their summed hours,
    and hours times rate. */
module InvoiceSelection {

  import opened Wrappers
  import opened Calendar
  import opened Records
  import Seqs

  /** The form's default range: from 13 days before today up to today,
      fourteen days counting both ends. */
  function DefaultRange(today: Date): (r: (Date, Date))
    ensures DayNumber(r.0) == DayNumber(today) - 13
    ensures r.1 == today
  {
    (AddDays(today, -13), today)
  }

  /** Exactly the fourteen days ending today lie in the default range. */
  lemma DefaultRangeIsFourteenDays(today: Date, d: Date)
    ensures var (start, end) := DefaultRange(today);
      DayNumber(start) <= DayNumber(d) <= DayNumber(end)
      <==> 0 <= DayNumber(today) - DayNumber(d) < 14
  {
  }

  /** The filter callback: the entry belongs to `projectId` and its date lies
      between `start` and `end`, both included. An empty date field (an
      invalid `Date`, for which every comparison is false) selects nothing. */
  predicate Selected(e: TimeEntry, projectId: string, start: Option<Date>, end: Option<Date>)
  {
    e.projectId == projectId && start.Some? && end.Some?
    && DayNumber(start.value) <= DayNumber(e.date) <= DayNumber(end.value)
  }

  /** `entries.filter(...)`: the selected entries in their original order. */
  function SelectEntries(entries: seq<TimeEntry>, projectId: string, start: Option<Date>, end: Option<Date>): (r: seq<TimeEntry>)
    ensures forall e :: e in r <==> e in entries && Selected(e, projectId, start, end)
    ensures start.None? || end.None? ==> r == []
  {
    var r := Seqs.Filter(entries, (e: TimeEntry) => Selected(e, projectId, start, end));
    assert |r| > 0 ==> Selected(r[0], projectId, start, end);
    r
  }

  /** The selection holds every copy of a selected entry and nothing else:
      repeated rows are not merged. */
  lemma SelectionCounts(entries: seq<TimeEntry>, projectId: string, start: Option<Date>, end: Option<Date>)
    ensures forall e :: (multiset(SelectEntries(entries, projectId, start, end))[e]
      == if Selected(e, projectId, start, end) then multiset(entries)[e] else 0)
  {
    Seqs.FilterMultiset(entries, (e: TimeEntry) => Selected(e, projectId, start, end));
  }

  /** Selection keeps list order: selecting from two lists one after the
      other gives the two selections one after the other. */
  lemma SelectionKeepsOrder(a: seq<TimeEntry>, b: seq<TimeEntry>, projectId: string, start: Option<Date>, end: Option<Date>)
    ensures SelectEntries(a + b, projectId, start, end)
      == SelectEntries(a, projectId, start, end) + SelectEntries(b, projectId, start, end)
  {
    Seqs.FilterConcat(a, b, (e: TimeEntry) => Selected(e, projectId, start, end));
  }

  /** `filteredEntries.reduce((sum, e) => sum + e.hours, 0)`. */
  function TotalHours(entries: seq<TimeEntry>): real
  {
    Seqs.Sum(entries, (e: TimeEntry) => e.hours)
  }

  /** `totalHours * hourlyRate`. */
  function TotalAmount(entries: seq<TimeEntry>, rate: real): real
  {
    TotalHours(entries) * rate
  }

  /** The amount is the sum of each entry's hours times the rate. */
  lemma AmountIsSumOfLines(entries: seq<TimeEntry>, rate: real)
    ensures TotalAmount(entries, rate) == Seqs.Sum(entries, (e: TimeEntry) => e.hours * rate)
  {
    Seqs.SumScale(entries, (e: TimeEntry) => e.hours, (e: TimeEntry) => e.hours * rate, rate);
  }

  /** With no negative hours, the totals are not negative. */
  lemma TotalsNonNegative(entries: seq<TimeEntry>, rate: real)
    requires forall i :: 0 <= i < |entries| ==> entries[i].hours >= 0.0
    requires rate >= 0.0
    ensures TotalHours(entries) >= 0.0
    ensures TotalAmount(entries, rate) >= 0.0
  {
    Seqs.SumNonNegative(entries, (e: TimeEntry) => e.hours);
  }

  /** `project?.hourly_rate || 0`: the project's rate, and 0 when there is
      no project (a rate of 0 stays 0). */
  function ProjectRate(project: Option<Project>): (r: real)
    ensures project.None? ==> r == 0.0
    ensures project.Some? ==> r == project.value.hourlyRate
  {
    if project.Some? && project.value.hourlyRate != 0.0 then project.value.hourlyRate else 0.0
  }

  /** Splitting a range at a day: the hours of `start..end` are the hours of
      `start..mid` plus those of the day after `mid` through `end`. */
  lemma RangeSplit(entries: seq<TimeEntry>, projectId: string, start: Date, mid: Date, next: Date, end: Date)
    requires DayNumber(next) == DayNumber(mid) + 1
    requires DayNumber(start) <= DayNumber(next) && DayNumber(mid) <= DayNumber(end)
    ensures TotalHours(SelectEntries(entries, projectId, Some(start), Some(end)))
      == TotalHours(SelectEntries(entries, projectId, Some(start), Some(mid)))
       + TotalHours(SelectEntries(entries, projectId, Some(next), Some(end)))
  {
    Seqs.SumFilterSplit(entries, (e: TimeEntry) => e.hours,
      (e: TimeEntry) => Selected(e, projectId, Some(start), Some(mid)),
      (e: TimeEntry) => Selected(e, projectId, Some(next), Some(end)),
      (e: TimeEntry) => Selected(e, projectId, Some(start), Some(end)));
  }
}
