/** The records the application reads from its store: clients, projects,
    time entries and invoices, with the lookups the components perform. */
module Records {

  import opened Wrappers
  import Seqs
  import opened Calendar

  datatype Client = Client(id: string, name: string, address: string)

  /** A project row. `billingStartDate`, `billingCycle` and `isActive` are
      optional columns (`None` for null, undefined or an empty string). */
  datatype Project = Project(
    id: string,
    name: string,
    financialYear: string,
    hourlyRate: real,
    clientId: string,
    billingStartDate: Option<Date>,
    billingCycle: Option<string>,
    isActive: Option<bool>)

  /** A time entry; `notes` may be missing. */
  datatype TimeEntry = TimeEntry(id: string, projectId: string, date: Date, hours: real, notes: Option<string>)

  /** An invoice row, with its inclusive date range and totals. */
  datatype Invoice = Invoice(
    id: string,
    projectId: string,
    clientId: string,
    invoiceNumber: string,
    startDate: Date,
    endDate: Date,
    totalAmount: real,
    totalHours: real,
    pdfUrl: string)

  /** JavaScript truthiness of an optional string column. */
  predicate Truthy(s: Option<string>)
  {
    s.Some? && |s.value| > 0
  }

  /** `projects.find(p => p.id === id)`: the first project with that id. */
  function FindProject(projects: seq<Project>, id: string): (r: Option<Project>)
    ensures r.Some? ==> r.value in projects && r.value.id == id
    ensures r.None? <==> forall p :: p in projects ==> p.id != id
  {
    Seqs.Find(projects, (p: Project) => p.id == id)
  }

  /** The project found is the first one listed with that id. */
  lemma FindProjectFirst(projects: seq<Project>, id: string)
    ensures var r := FindProject(projects, id);
      r.Some? ==> exists i :: (0 <= i < |projects| && projects[i] == r.value
        && forall j :: 0 <= j < i ==> projects[j].id != id)
  {
  }

  /** `clients.find(c => c.id === id)`: the first client with that id. */
  function FindClient(clients: seq<Client>, id: string): (r: Option<Client>)
    ensures r.Some? ==> r.value in clients && r.value.id == id
    ensures r.None? <==> forall c :: c in clients ==> c.id != id
  {
    Seqs.Find(clients, (c: Client) => c.id == id)
  }

  /** The client found is the first one listed with that id. */
  lemma FindClientFirst(clients: seq<Client>, id: string)
    ensures var r := FindClient(clients, id);
      r.Some? ==> exists i :: (0 <= i < |clients| && clients[i] == r.value
        && forall j :: 0 <= j < i ==> clients[j].id != id)
  {
  }

  /** `clients.find(c => c.id === project?.client_id)`: no client when the
      project itself is missing. */
  function ClientOf(clients: seq<Client>, project: Option<Project>): (r: Option<Client>)
    ensures r.Some? ==> project.Some? && r.value in clients && r.value.id == project.value.clientId
    ensures r.None? <==> project.None? || forall c :: c in clients ==> c.id != project.value.clientId
  {
    if project.None? then None else FindClient(clients, project.value.clientId)
  }

  /** The client of a project is the first one listed with the project's
      `client_id`. */
  lemma ClientOfFirst(clients: seq<Client>, project: Option<Project>)
    ensures var r := ClientOf(clients, project);
      r.Some? ==> exists i :: (0 <= i < |clients| && clients[i] == r.value
        && forall j :: 0 <= j < i ==> clients[j].id != project.value.clientId)
  {
    if project.Some? {
      FindClientFirst(clients, project.value.clientId);
    }
  }
}
