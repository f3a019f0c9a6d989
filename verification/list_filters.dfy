/** The project and financial-year filters over time entries
    (src/pages/Dashboard.tsx, src/pages/Dashboard.jsx,
    src/pages/RedesignedDashboard.tsx) and invoices
    (src/components/InvoiceList.tsx), the empty-state row of the invoice list,
    and the deduplicated financial-year options. All four screens use the same
    callback on the row's project id. */
module ListFilters {

  import opened Wrappers
  import opened Records
  import Seqs

  /** `(!filterProject || row.project_id === filterProject) &&
      (!filterYear || project?.financial_year === filterYear)`, with
      `project` the row's project looked up by id. */
  predicate Keeps(projects: seq<Project>, filterProject: string, filterYear: string, projectId: string)
  {
    (|filterProject| == 0 || projectId == filterProject)
    && (|filterYear| == 0
        || (FindProject(projects, projectId).Some? && FindProject(projects, projectId).value.financialYear == filterYear))
  }

  /** `filteredEntries`. */
  function FilterEntries(entries: seq<TimeEntry>, projects: seq<Project>, filterProject: string, filterYear: string): (r: seq<TimeEntry>)
    ensures forall e :: e in r <==> e in entries && Keeps(projects, filterProject, filterYear, e.projectId)
    ensures |r| <= |entries|
  {
    Seqs.Filter(entries, (e: TimeEntry) => Keeps(projects, filterProject, filterYear, e.projectId))
  }

  /** `filteredInvoices`. */
  function FilterInvoices(invoices: seq<Invoice>, projects: seq<Project>, filterProject: string, filterYear: string): (r: seq<Invoice>)
    ensures forall i :: i in r <==> i in invoices && Keeps(projects, filterProject, filterYear, i.projectId)
    ensures |r| <= |invoices|
  {
    Seqs.Filter(invoices, (i: Invoice) => Keeps(projects, filterProject, filterYear, i.projectId))
  }

  /** With both filters empty, every row is kept, in order. */
  lemma NoFilterKeepsAll(entries: seq<TimeEntry>, invoices: seq<Invoice>, projects: seq<Project>)
    ensures FilterEntries(entries, projects, "", "") == entries
    ensures FilterInvoices(invoices, projects, "", "") == invoices
  {
    Seqs.FilterAll(entries, (e: TimeEntry) => Keeps(projects, "", "", e.projectId));
    Seqs.FilterAll(invoices, (i: Invoice) => Keeps(projects, "", "", i.projectId));
  }

  /** A project filter alone keeps exactly the rows of that project. */
  lemma ProjectFilterExact(entries: seq<TimeEntry>, projects: seq<Project>, filterProject: string, e: TimeEntry)
    requires |filterProject| > 0
    ensures e in FilterEntries(entries, projects, filterProject, "") <==> e in entries && e.projectId == filterProject
  {
  }

  /** A year filter drops every row whose project is unknown. */
  lemma YearFilterDropsUnknownProjects(entries: seq<TimeEntry>, invoices: seq<Invoice>, projects: seq<Project>,
                                       filterProject: string, filterYear: string, projectId: string)
    requires |filterYear| > 0
    requires forall p :: p in projects ==> p.id != projectId
    ensures forall e :: e in FilterEntries(entries, projects, filterProject, filterYear) ==> e.projectId != projectId
    ensures forall i :: i in FilterInvoices(invoices, projects, filterProject, filterYear) ==> i.projectId != projectId
  {
  }

  /** Applying the year filter to the project-filtered list gives the same
      list as applying both at once: the two filters are independent. */
  lemma {:induction false} FiltersCompose(entries: seq<TimeEntry>, projects: seq<Project>, filterProject: string, filterYear: string)
    ensures FilterEntries(FilterEntries(entries, projects, filterProject, ""), projects, "", filterYear)
      == FilterEntries(entries, projects, filterProject, filterYear)
  {
    if |entries| > 0 {
      FiltersCompose(entries[1..], projects, filterProject, filterYear);
    }
  }

  /** The invoice list shows its "No invoices found." row. */
  predicate ShowsNoInvoicesRow(invoices: seq<Invoice>, projects: seq<Project>, filterProject: string, filterYear: string)
  {
    |FilterInvoices(invoices, projects, filterProject, filterYear)| == 0
  }

  /** The empty-state row appears exactly when no fetched invoice passes the
      filters. */
  lemma NoInvoicesRowIff(invoices: seq<Invoice>, projects: seq<Project>, filterProject: string, filterYear: string)
    ensures ShowsNoInvoicesRow(invoices, projects, filterProject, filterYear)
      <==> forall i :: i in invoices ==> !Keeps(projects, filterProject, filterYear, i.projectId)
  {
    var r := FilterInvoices(invoices, projects, filterProject, filterYear);
    if |r| > 0 {
      assert r[0] in r;
    }
  }

  /** `projects.map(p => p.financial_year)`. */
  function Years(projects: seq<Project>): (r: seq<string>)
    ensures |r| == |projects| && forall i :: 0 <= i < |projects| ==> r[i] == projects[i].financialYear
  {
    seq(|projects|, i requires 0 <= i < |projects| => projects[i].financialYear)
  }

  /** `[...new Set(projects.map(p => p.financial_year))]`: each project's
      year once, in the order of first appearance. */
  function YearOptions(projects: seq<Project>): (r: seq<string>)
    ensures Seqs.Distinct(r)
    ensures forall y :: y in r <==> exists p :: p in projects && p.financialYear == y
    ensures forall y :: y in r <==> y in Years(projects)
    ensures forall i, j :: 0 <= i < j < |r| ==> Seqs.IndexOf(Years(projects), r[i]) < Seqs.IndexOf(Years(projects), r[j])
  {
    var years := Years(projects);
    assert forall y :: y in years <==> exists p :: p in projects && p.financialYear == y by {
      forall y ensures y in years <==> exists p :: p in projects && p.financialYear == y {
        if y in years {
          var i :| 0 <= i < |years| && years[i] == y;
          assert projects[i] in projects;
        }
        if exists p :: p in projects && p.financialYear == y {
          var p :| p in projects && p.financialYear == y;
          var i :| 0 <= i < |projects| && projects[i] == p;
          assert years[i] == y;
        }
      }
    }
    Seqs.Dedup(years)
  }
}
