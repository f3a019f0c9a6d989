/** The older invoice form (src/components/InvoiceForm.jsx): the same entry
    selection, a rate read straight from the selected project, and a Generate
    button that takes a number from the browser-storage counter on every
    click, with no validation and no duplicate check. */
module InvoiceFormJsx {

  import opened Wrappers
  import opened Calendar
  import opened Records
  import opened InvoiceSelection
  import opened InvoiceCounter
  import opened InvoiceNumber
  import Seqs

  /** What one click produces: the counter value taken (the PDF prints
      `Format(number)`), the storage afterwards, the totals printed, and
      whether the breakdown is drawn. */
  datatype Click = Click(number: nat, storage: Storage, totalHours: real, totalAmount: real, breakdown: bool)

  /** `projectRate = selectedProject?.hourly_rate || 0`: the rate of the first
      listed project with the selected id, and 0 when no project has it. */
  function ProjectRateOf(projects: seq<Project>, projectId: string): (r: real)
    ensures (forall p :: p in projects ==> p.id != projectId) ==> r == 0.0
    ensures (exists p :: p in projects && p.id == projectId) ==>
      exists i :: 0 <= i < |projects| && projects[i].id == projectId && r == projects[i].hourlyRate
        && forall j :: 0 <= j < i ==> projects[j].id != projectId
  {
    FindProjectFirst(projects, projectId);
    ProjectRate(FindProject(projects, projectId))
  }

  /** `generateInvoice()` of the older form. */
  function GenerateClick(storage: Storage, projectId: string, start: Option<Date>, end: Option<Date>,
                         includeDetails: bool, projects: seq<Project>, entries: seq<TimeEntry>): (c: Click)
    ensures c.storage == Holds(StoredValue(storage) + 1)
    ensures c.number == StoredValue(storage)
  {
    var selected := SelectEntries(entries, projectId, start, end);
    var step := LocalNextInvoiceNumber(storage);
    Click(step.0.value, step.1, TotalHours(selected), TotalAmount(selected, ProjectRateOf(projects, projectId)),
      includeDetails && |selected| > 0)
  }

  /** The printed amount is the sum over the selected entries of hours times
      the selected project's rate (0 for an unknown project), and the
      breakdown is drawn exactly when asked for with something to list. */
  lemma ClickTotals(storage: Storage, projectId: string, start: Option<Date>, end: Option<Date>,
                    includeDetails: bool, projects: seq<Project>, entries: seq<TimeEntry>)
    ensures var c := GenerateClick(storage, projectId, start, end, includeDetails, projects, entries);
      var selected := SelectEntries(entries, projectId, start, end);
      var rate := if FindProject(projects, projectId).Some? then FindProject(projects, projectId).value.hourlyRate else 0.0;
      c.totalHours == TotalHours(selected)
      && c.totalAmount == Seqs.Sum(selected, (e: TimeEntry) => e.hours * rate)
      && (c.breakdown <==> includeDetails && |selected| > 0)
  {
    var selected := SelectEntries(entries, projectId, start, end);
    AmountIsSumOfLines(selected, ProjectRateOf(projects, projectId));
  }

  /** Every click consumes a number: pressing Generate twice on the same form
      prints two different invoice numbers. */
  lemma EveryClickConsumesANumber(storage: Storage, projectId: string, start: Option<Date>, end: Option<Date>,
                                  includeDetails: bool, projects: seq<Project>, entries: seq<TimeEntry>)
    ensures var first := GenerateClick(storage, projectId, start, end, includeDetails, projects, entries);
      var second := GenerateClick(first.storage, projectId, start, end, includeDetails, projects, entries);
      Format(first.number) != Format(second.number)
      && second.storage == Holds(StoredValue(storage) + 2)
  {
    var v := StoredValue(storage);
    if Format(v) == Format(v + 1) {
      FormatInjective(v, v + 1);
    }
  }
}
