/** `regenerate` in src/components/RegenerateInvoiceModal.tsx: rebuild the PDF
    of an existing invoice from the current entries and overwrite the stored
    one. It keeps the invoice's number, project and period and never touches
    the number counter: its trace has no step that could. */
module RegenerateInvoice {

  import opened Wrappers
  import opened Calendar
  import opened Records
  import opened InvoiceSelection
  import InvoiceForm

  /** The dialog's props: the invoice being regenerated. */
  datatype Target = Target(invoiceNumber: string, projectId: string, startDate: Date, endDate: Date)

  /** The payload of `updateInvoiceInSupabase`. */
  datatype Update = Update(
    invoiceNumber: string,
    projectId: string,
    clientId: string,
    startDate: Date,
    endDate: Date,
    totalAmount: real,
    totalHours: real)

  /** The steps of a regeneration, in order. */
  datatype Effect =
    | BuildPdf(invoiceNumber: string, entries: seq<TimeEntry>, breakdown: bool)
    | Overwrite(update: Update)
    | NotifySuccess
    | Close

  datatype Outcome = Regenerated | UpdateFailed

  datatype Run = Run(effects: seq<Effect>, outcome: Outcome)

  /** `regenerate()`, given the fetched entries and the URL the update
      resolves to (`None` for a falsy one). */
  function Regenerate(target: Target, includeDetails: bool, entries: seq<TimeEntry>, projects: seq<Project>,
                      clients: seq<Client>, updateUrl: Option<string>): (r: Run)
    ensures |r.effects| >= 2 && r.effects[1].Overwrite?
    ensures var u := r.effects[1].update;
      u.invoiceNumber == target.invoiceNumber && u.projectId == target.projectId
      && u.startDate == target.startDate && u.endDate == target.endDate
    ensures var selected := SelectEntries(entries, target.projectId, Some(target.startDate), Some(target.endDate));
      r.effects[0] == BuildPdf(target.invoiceNumber, selected, includeDetails && |selected| > 0)
      && r.effects[1].update.totalHours == TotalHours(selected)
      && r.effects[1].update.totalAmount == TotalHours(selected) * ProjectRate(FindProject(projects, target.projectId))
    ensures var client := ClientOf(clients, FindProject(projects, target.projectId));
      r.effects[1].update.clientId == if client.Some? && |client.value.id| > 0 then client.value.id else ""
    ensures r.outcome == Regenerated <==> updateUrl.Some?
    ensures r.outcome == Regenerated ==> r.effects[2..] == [NotifySuccess, Close]
    ensures r.outcome == UpdateFailed ==> |r.effects| == 2
  {
    var selected := SelectEntries(entries, target.projectId, Some(target.startDate), Some(target.endDate));
    var project := FindProject(projects, target.projectId);
    var client := ClientOf(clients, project);
    var clientId := if client.Some? && |client.value.id| > 0 then client.value.id else "";
    var update := Update(target.invoiceNumber, target.projectId, clientId, target.startDate, target.endDate,
      TotalAmount(selected, ProjectRate(project)), TotalHours(selected));
    var built := [BuildPdf(target.invoiceNumber, selected, includeDetails && |selected| > 0), Overwrite(update)];
    if updateUrl.Some? then Run(built + [NotifySuccess, Close], Regenerated)
    else Run(built, UpdateFailed)
  }

  /** Regenerating an invoice the form just generated, from the same entries
      and with the form's rate equal to the project's, reproduces the saved
      invoice: the same number, project, client, period and totals. */
  lemma RegenerationReproducesGeneration(form: InvoiceForm.Form, projects: seq<Project>, clients: seq<Client>,
                                         entries: seq<TimeEntry>, backend: InvoiceForm.Backend,
                                         includeDetails: bool, updateUrl: Option<string>)
    requires InvoiceForm.GenerateInvoice(form, projects, clients, entries, backend).notice.Generated?
    requires form.hourlyRate == ProjectRate(FindProject(projects, form.projectId))
    ensures var d := InvoiceForm.GenerateInvoice(form, projects, clients, entries, backend).effects[3].draft;
      var u := Regenerate(Target(d.invoiceNumber, d.projectId, d.startDate, d.endDate), includeDetails,
                          entries, projects, clients, updateUrl).effects[1].update;
      u == Update(d.invoiceNumber, d.projectId, d.clientId, d.startDate, d.endDate, d.totalAmount, d.totalHours)
  {
  }

  /** The invoice a successful generation saves is the form's draft under
      the reserved number. */
  lemma GeneratedDraft(form: InvoiceForm.Form, projects: seq<Project>, clients: seq<Client>,
                       entries: seq<TimeEntry>, backend: InvoiceForm.Backend)
    requires InvoiceForm.GenerateInvoice(form, projects, clients, entries, backend).notice.Generated?
    ensures InvoiceForm.FieldsComplete(form, projects, clients) && backend.reservation.Some?
    ensures InvoiceForm.GenerateInvoice(form, projects, clients, entries, backend).effects[3].draft
      == InvoiceForm.DraftOf(form, projects, clients, entries, backend.reservation.value.invoiceNumber)
  {
  }

  /** The converse: regenerating keeps the hours and moves the amount by the
      hours times the difference between the project's rate and the form's,
      so it rewrites the amount whenever there are hours and the two rates
      differ. The form's rate can differ from the project's when it was typed
      in, or when it stayed from an earlier project because the selected one
      has rate 0. */
  lemma RegenerationRewritesAmount(form: InvoiceForm.Form, projects: seq<Project>, clients: seq<Client>,
                                   entries: seq<TimeEntry>, backend: InvoiceForm.Backend,
                                   includeDetails: bool, updateUrl: Option<string>)
    requires InvoiceForm.GenerateInvoice(form, projects, clients, entries, backend).notice.Generated?
    ensures var d := InvoiceForm.GenerateInvoice(form, projects, clients, entries, backend).effects[3].draft;
      var u := Regenerate(Target(d.invoiceNumber, d.projectId, d.startDate, d.endDate), includeDetails,
                          entries, projects, clients, updateUrl).effects[1].update;
      var h := TotalHours(SelectEntries(entries, form.projectId, form.startDate, form.endDate));
      u.totalHours == d.totalHours
      && u.totalAmount - d.totalAmount == h * (ProjectRate(FindProject(projects, form.projectId)) - form.hourlyRate)
  {
    GeneratedDraft(form, projects, clients, entries, backend);
    DraftRegeneration(form, projects, clients, entries, backend.reservation.value.invoiceNumber, includeDetails, updateUrl);
  }

  /** Regenerating the draft of a complete form keeps its hours and moves its
      amount to the project's rate. */
  lemma DraftRegeneration(form: InvoiceForm.Form, projects: seq<Project>, clients: seq<Client>,
                          entries: seq<TimeEntry>, number: string, includeDetails: bool, updateUrl: Option<string>)
    requires InvoiceForm.FieldsComplete(form, projects, clients)
    ensures var d := InvoiceForm.DraftOf(form, projects, clients, entries, number);
      var u := Regenerate(Target(d.invoiceNumber, d.projectId, d.startDate, d.endDate), includeDetails,
                          entries, projects, clients, updateUrl).effects[1].update;
      var h := TotalHours(SelectEntries(entries, form.projectId, form.startDate, form.endDate));
      u.totalHours == d.totalHours
      && u.totalAmount - d.totalAmount == h * (ProjectRate(FindProject(projects, form.projectId)) - form.hourlyRate)
  {
    DraftTotals(form, projects, clients, entries, number);
    var d := InvoiceForm.DraftOf(form, projects, clients, entries, number);
    RegeneratedTotals(Target(d.invoiceNumber, d.projectId, d.startDate, d.endDate), form.projectId, form.startDate, form.endDate,
      includeDetails, entries, projects, clients, updateUrl);
  }

  /** The totals of a complete form's draft: the selected entries' hours, at
      the form's rate. */
  lemma DraftTotals(form: InvoiceForm.Form, projects: seq<Project>, clients: seq<Client>,
                    entries: seq<TimeEntry>, number: string)
    requires InvoiceForm.FieldsComplete(form, projects, clients)
    ensures var d := InvoiceForm.DraftOf(form, projects, clients, entries, number);
      var h := TotalHours(SelectEntries(entries, form.projectId, form.startDate, form.endDate));
      d.totalHours == h && d.totalAmount == h * form.hourlyRate
  {
  }

  /** The totals regenerating writes for an invoice of the given project and
      period: the selected entries' hours, at the project's rate. */
  lemma RegeneratedTotals(target: Target, projectId: string, start: Option<Date>, end: Option<Date>,
                          includeDetails: bool, entries: seq<TimeEntry>, projects: seq<Project>,
                          clients: seq<Client>, updateUrl: Option<string>)
    requires target.projectId == projectId && start == Some(target.startDate) && end == Some(target.endDate)
    ensures var u := Regenerate(target, includeDetails, entries, projects, clients, updateUrl).effects[1].update;
      var h := TotalHours(SelectEntries(entries, projectId, start, end));
      u.totalHours == h && u.totalAmount == h * ProjectRate(FindProject(projects, projectId))
  {
  }
}
