/** The invoice form (src/components/InvoiceForm.tsx): the hourly-rate
    effect, the breakdown condition and `generateInvoice`, a linear pipeline of
    backend steps — reserve a number, check for a duplicate, build the PDF,
    save, commit the counter — each of which can stop the run. The backend
    calls are inputs (their responses) and the steps taken are recorded as a
    trace of effects. */
module InvoiceForm {

  import opened Wrappers
  import opened Calendar
  import opened Records
  import opened InvoiceSelection
  import Seqs

  /** The `useEffect` on the selected project: a truthy project rate replaces
      the current rate; a missing project or a rate of 0 keeps it. */
  function RateAfterSelection(current: real, selected: Option<Project>): (r: real)
    ensures selected.Some? && selected.value.hourlyRate != 0.0 ==> r == selected.value.hourlyRate
    ensures selected.None? || selected.value.hourlyRate == 0.0 ==> r == current
  {
    if selected.Some? && selected.value.hourlyRate != 0.0 then selected.value.hourlyRate else current
  }

  /** After a project is selected the rate is that project's rate, as the
      regeneration dialog would recompute it, except when the project's rate is
      0 and the rate already entered is not: then the stale rate stays. */
  lemma RateFollowsProject(current: real, p: Project)
    ensures RateAfterSelection(current, Some(p)) == ProjectRate(Some(p)) <==> p.hourlyRate != 0.0 || current == 0.0
  {
  }

  /** The form state when Generate is pressed. An empty text field is `None`
      (or, for the project, the empty string). */
  datatype Form = Form(
    projectId: string,
    startDate: Option<Date>,
    endDate: Option<Date>,
    includeDetails: bool,
    hourlyRate: real)

  /** What `reserveNextInvoiceNumber()` resolves to when it resolves to an
      object: the number text and the counter value to commit afterwards. */
  datatype Reservation = Reservation(invoiceNumber: string, next: int)

  /** The responses of the backend calls, in the order they are made;
      `saveUrl` is the URL the save resolves to (`None` for a falsy one,
      the empty string included). */
  datatype Backend = Backend(
    reservation: Option<Reservation>,
    invoices: seq<Invoice>,
    checkFails: bool,
    saveUrl: Option<string>,
    commitOk: bool)

  /** The invoice handed to `saveInvoiceToSupabase`. */
  datatype Draft = Draft(
    projectId: string,
    clientId: string,
    invoiceNumber: string,
    startDate: Date,
    endDate: Date,
    totalAmount: real,
    totalHours: real)

  /** The backend steps in the order `generateInvoice` takes them. */
  datatype Effect =
    | Reserve
    | CheckDuplicate(projectId: string, startDate: Date, endDate: Date)
    | BuildPdf(invoiceNumber: string)
    | Save(draft: Draft)
    | Commit(next: int)

  /** The toast the run ends with. */
  datatype Notice =
    | MissingFields
    | NumberFailed
    | CheckFailed
    | AlreadyExists
    | SaveFailed
    | Generated(url: string, counterWarning: bool)

  datatype Run = Run(effects: seq<Effect>, notice: Notice)

  /** The `if (!project_id || !startDate || !endDate || !client)` guard. */
  predicate FieldsComplete(form: Form, projects: seq<Project>, clients: seq<Client>)
  {
    |form.projectId| > 0 && form.startDate.Some? && form.endDate.Some?
    && ClientOf(clients, FindProject(projects, form.projectId)).Some?
  }

  /** The rows the duplicate query matches: same project, start and end. */
  function Matching(invoices: seq<Invoice>, projectId: string, start: Date, end: Date): seq<Invoice>
  {
    Seqs.Filter(invoices, (i: Invoice) => i.projectId == projectId && i.startDate == start && i.endDate == end)
  }

  /** `.maybeSingle()` on the duplicate query: an error when the call fails
      or more than one row matches, otherwise the matching row if any. */
  datatype CheckResult = QueryError | Found | NotFound

  function DuplicateQuery(invoices: seq<Invoice>, checkFails: bool, projectId: string, start: Date, end: Date): (r: CheckResult)
    ensures r == NotFound <==> !checkFails && forall i :: (i in invoices
      ==> !(i.projectId == projectId && i.startDate == start && i.endDate == end))
    ensures r == Found ==> exists i :: (i in invoices
      && i.projectId == projectId && i.startDate == start && i.endDate == end)
  {
    var matches := Matching(invoices, projectId, start, end);
    if checkFails then QueryError
    else if |matches| > 1 then
      assert matches[0] in matches;
      QueryError
    else if |matches| == 1 then
      assert matches[0] in matches;
      Found
    else
      assert forall i :: i !in matches;
      NotFound
  }

  /** The invoice saved for a form: the reserved number, the project's client
      and the totals of the selected entries at the form's rate. */
  function DraftOf(form: Form, projects: seq<Project>, clients: seq<Client>, entries: seq<TimeEntry>, number: string): (d: Draft)
    requires FieldsComplete(form, projects, clients)
    ensures d.projectId == form.projectId && d.invoiceNumber == number
    ensures d.clientId == ClientOf(clients, FindProject(projects, form.projectId)).value.id
    ensures d.startDate == form.startDate.value && d.endDate == form.endDate.value
    ensures d.totalHours == TotalHours(SelectEntries(entries, form.projectId, form.startDate, form.endDate))
    ensures d.totalAmount == d.totalHours * form.hourlyRate
  {
    var selected := SelectEntries(entries, form.projectId, form.startDate, form.endDate);
    var client := ClientOf(clients, FindProject(projects, form.projectId));
    Draft(form.projectId, client.value.id, number, form.startDate.value, form.endDate.value,
      TotalAmount(selected, form.hourlyRate), TotalHours(selected))
  }

  /** The steps of `generateInvoice()` after the field guard, for a project
      and period and a way to build the saved invoice from the reserved
      number. */
  function AfterGuard(projectId: string, start: Date, end: Date, draft: string -> Draft, backend: Backend): (r: Run)
    ensures r.notice != MissingFields
    ensures r.notice == NumberFailed <==> backend.reservation.None? || backend.reservation.value.invoiceNumber == "SIS-ERROR"
    ensures r.notice == NumberFailed ==> r.effects == [Reserve]
    ensures r.notice == CheckFailed || r.notice == AlreadyExists ==>
      r.effects == [Reserve, CheckDuplicate(projectId, start, end)]
    ensures r.notice.Generated? <==> (backend.reservation.Some? && backend.reservation.value.invoiceNumber != "SIS-ERROR"
      && DuplicateQuery(backend.invoices, backend.checkFails, projectId, start, end) == NotFound
      && backend.saveUrl.Some?)
    ensures r.notice.Generated? ==> (r.notice.url == backend.saveUrl.value
      && r.notice.counterWarning == !backend.commitOk)
    ensures r.notice.Generated? ==> r.effects == [
      Reserve,
      CheckDuplicate(projectId, start, end),
      BuildPdf(backend.reservation.value.invoiceNumber),
      Save(draft(backend.reservation.value.invoiceNumber)),
      Commit(backend.reservation.value.next)]
    ensures r.notice == SaveFailed ==> (backend.reservation.Some? && r.effects == [
      Reserve,
      CheckDuplicate(projectId, start, end),
      BuildPdf(backend.reservation.value.invoiceNumber),
      Save(draft(backend.reservation.value.invoiceNumber))])
  {
    if backend.reservation.None? || backend.reservation.value.invoiceNumber == "SIS-ERROR" then
      Run([Reserve], NumberFailed)
    else
      var number := backend.reservation.value.invoiceNumber;
      var checked := [Reserve, CheckDuplicate(projectId, start, end)];
      match DuplicateQuery(backend.invoices, backend.checkFails, projectId, start, end)
      case QueryError => Run(checked, CheckFailed)
      case Found => Run(checked, AlreadyExists)
      case NotFound =>
        var saved := checked + [BuildPdf(number), Save(draft(number))];
        if backend.saveUrl.None? then Run(saved, SaveFailed)
        else Run(saved + [Commit(backend.reservation.value.next)], Generated(backend.saveUrl.value, !backend.commitOk))
  }

  /** How a complete form turns the reserved number into the saved invoice. */
  function DraftMaker(form: Form, projects: seq<Project>, clients: seq<Client>, entries: seq<TimeEntry>): (f: string -> Draft)
    requires FieldsComplete(form, projects, clients)
    ensures forall number :: f(number) == DraftOf(form, projects, clients, entries, number)
  {
    (number: string) => DraftOf(form, projects, clients, entries, number)
  }

  /** `generateInvoice()`: the field guard, then the backend steps. */
  function GenerateInvoice(form: Form, projects: seq<Project>, clients: seq<Client>, entries: seq<TimeEntry>, backend: Backend): (r: Run)
    ensures r.notice == MissingFields <==> !FieldsComplete(form, projects, clients)
    ensures r.notice == MissingFields ==> r.effects == []
  {
    if !FieldsComplete(form, projects, clients) then Run([], MissingFields)
    else
      AfterGuard(form.projectId, form.startDate.value, form.endDate.value,
        DraftMaker(form, projects, clients, entries), backend)
  }

  /** The full outcome of a run: which responses lead to an invoice, what is
      saved, and that the counter commit comes last. */
  lemma GenerateInvoiceOutcome(form: Form, projects: seq<Project>, clients: seq<Client>, entries: seq<TimeEntry>, backend: Backend)
    ensures var r := GenerateInvoice(form, projects, clients, entries, backend);
      r.notice.Generated? <==> (FieldsComplete(form, projects, clients)
        && backend.reservation.Some? && backend.reservation.value.invoiceNumber != "SIS-ERROR"
        && DuplicateQuery(backend.invoices, backend.checkFails, form.projectId, form.startDate.value, form.endDate.value) == NotFound
        && backend.saveUrl.Some?)
    ensures var r := GenerateInvoice(form, projects, clients, entries, backend);
      r.notice.Generated? ==> (r.notice.url == backend.saveUrl.value
        && r.notice.counterWarning == !backend.commitOk
        && r.effects == [
          Reserve,
          CheckDuplicate(form.projectId, form.startDate.value, form.endDate.value),
          BuildPdf(backend.reservation.value.invoiceNumber),
          Save(DraftOf(form, projects, clients, entries, backend.reservation.value.invoiceNumber)),
          Commit(backend.reservation.value.next)])
    ensures var r := GenerateInvoice(form, projects, clients, entries, backend);
      r.notice == NumberFailed ==> r.effects == [Reserve]
    ensures var r := GenerateInvoice(form, projects, clients, entries, backend);
      r.notice == CheckFailed || r.notice == AlreadyExists ==>
        r.effects == [Reserve, CheckDuplicate(form.projectId, form.startDate.value, form.endDate.value)]
    ensures var r := GenerateInvoice(form, projects, clients, entries, backend);
      r.notice == SaveFailed ==> (backend.reservation.Some? && backend.saveUrl.None? && r.effects == [
        Reserve,
        CheckDuplicate(form.projectId, form.startDate.value, form.endDate.value),
        BuildPdf(backend.reservation.value.invoiceNumber),
        Save(DraftOf(form, projects, clients, entries, backend.reservation.value.invoiceNumber))])
  {
  }

  /** Steps that write something or cost work: building, saving, committing. */
  predicate Late(e: Effect)
  {
    e.BuildPdf? || e.Save? || e.Commit?
  }

  /** Every early exit leaves no later side effect: a run that does not end
      in a save attempt never builds, saves or commits. */
  lemma EarlyExitsHaveNoLateEffects(form: Form, projects: seq<Project>, clients: seq<Client>, entries: seq<TimeEntry>, backend: Backend)
    ensures var r := GenerateInvoice(form, projects, clients, entries, backend);
      !r.notice.Generated? && r.notice != SaveFailed ==> forall i :: 0 <= i < |r.effects| ==> !Late(r.effects[i])
  {
    GenerateInvoiceOutcome(form, projects, clients, entries, backend);
  }

  /** The counter is committed only after a save returned a URL, with the
      value the reservation gave, and only as the last step. */
  lemma CommitOnlyAfterSave(form: Form, projects: seq<Project>, clients: seq<Client>, entries: seq<TimeEntry>, backend: Backend, i: nat)
    requires var r := GenerateInvoice(form, projects, clients, entries, backend);
      i < |r.effects| && r.effects[i].Commit?
    ensures var r := GenerateInvoice(form, projects, clients, entries, backend);
      i == |r.effects| - 1 && i > 0 && r.effects[i - 1].Save? && backend.saveUrl.Some?
      && r.effects[i].next == backend.reservation.value.next
  {
    GenerateInvoiceOutcome(form, projects, clients, entries, backend);
  }

  /** A duplicate for the same project and period stops the run before the
      PDF is built, whatever the later responses would have been. */
  lemma DuplicateBlocksBuild(form: Form, projects: seq<Project>, clients: seq<Client>, entries: seq<TimeEntry>, backend: Backend, existing: Invoice)
    requires FieldsComplete(form, projects, clients)
    requires existing in backend.invoices
    requires existing.projectId == form.projectId
    requires existing.startDate == form.startDate.value && existing.endDate == form.endDate.value
    ensures var r := GenerateInvoice(form, projects, clients, entries, backend);
      !r.notice.Generated? && forall e :: e in r.effects ==> !e.BuildPdf?
  {
    var start, end := form.startDate.value, form.endDate.value;
    assert existing in Matching(backend.invoices, form.projectId, start, end);
    assert DuplicateQuery(backend.invoices, backend.checkFails, form.projectId, start, end) != NotFound;
    var r := AfterGuard(form.projectId, start, end, DraftMaker(form, projects, clients, entries), backend);
    assert r.effects == [] || r.effects == [Reserve] || r.effects == [Reserve, CheckDuplicate(form.projectId, start, end)];
  }

  /** `includeDetails && filteredEntries.length > 0`: the work breakdown is
      drawn only when asked for and there is something to list. */
  predicate DrawsBreakdown(includeDetails: bool, selected: seq<TimeEntry>)
  {
    includeDetails && |selected| > 0
  }
}
