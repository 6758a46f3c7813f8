/** The record shapes of src/types/Issue.ts: an issue, the sort direction,
    the filters record and the aggregate table state. */
module IssueTypes {
  import opened Collections

  /** One issue. `estimate` is the only numeric attribute; every other
      attribute is a string except `labels`, a list of strings. */
  datatype Issue = Issue(
    identifier: string,
    title: string,
    labels: seq<string>,
    project: string,
    assignee: string,
    dueDate: string,
    status: string,
    priority: string,
    description: string,
    createdAt: string,
    updatedAt: string,
    cycle: string,
    estimate: int)

  /** `'asc' | 'desc'`. */
  datatype SortDirection = Asc | Desc

  /** The attributes a column header can sort by. */
  datatype SortField = ById | ByPriority | ByDueDate | ByEstimate

  /** The five filter categories; the group-by selector offers the same five attributes. */
  datatype Category = Status | Project | Priority | Assignee | Cycle

  /** For each category the accepted values; an empty list accepts everything. */
  datatype Filters = Filters(
    status: seq<string>,
    project: seq<string>,
    priority: seq<string>,
    assignee: seq<string>,
    cycle: seq<string>)

  /** Page sizes are positive; the page-size selector offers 10 to 50. */
  type PageSize = n: nat | 0 < n witness 10

  /** The aggregate view state (`TableState`). */
  datatype TableState = TableState(
    search: string,
    sortField: Option<SortField>,
    sortDirection: SortDirection,
    filters: Filters,
    groupBy: Option<Category>,
    page: nat,
    pageSize: PageSize,
    openIssueId: Option<string>)

  const EmptyFilters := Filters([], [], [], [], [])

  /** The attribute name of a category, as it appears in the URL and in the selector. */
  function CategoryName(c: Category): string {
    match c
    case Status => "status"
    case Project => "project"
    case Priority => "priority"
    case Assignee => "assignee"
    case Cycle => "cycle"
  }

  /** Reads a category back from its attribute name; any other string names none. */
  function ParseCategory(s: string): (r: Option<Category>)
    ensures r.Some? ==> CategoryName(r.value) == s
    ensures forall c :: CategoryName(c) == s ==> r == Some(c)
  {
    if s == "status" then Some(Status)
    else if s == "project" then Some(Project)
    else if s == "priority" then Some(Priority)
    else if s == "assignee" then Some(Assignee)
    else if s == "cycle" then Some(Cycle)
    else None
  }

  /** The issue's value for a category (`issue[category]`). */
  function Value(issue: Issue, c: Category): string {
    match c
    case Status => issue.status
    case Project => issue.project
    case Priority => issue.priority
    case Assignee => issue.assignee
    case Cycle => issue.cycle
  }

  /** The accepted-values list of one category (`filters[category]`). */
  function Selected(f: Filters, c: Category): seq<string> {
    match c
    case Status => f.status
    case Project => f.project
    case Priority => f.priority
    case Assignee => f.assignee
    case Cycle => f.cycle
  }

  /** `{ ...filters, [category]: values }`: replaces one category's list. */
  function WithSelected(f: Filters, c: Category, values: seq<string>): (r: Filters)
    ensures Selected(r, c) == values
    ensures forall d :: d != c ==> Selected(r, d) == Selected(f, d)
  {
    match c
    case Status => f.(status := values)
    case Project => f.(project := values)
    case Priority => f.(priority := values)
    case Assignee => f.(assignee := values)
    case Cycle => f.(cycle := values)
  }

  /** Some category restricts the rows (`Object.values(filters).some(f => f.length > 0)`). */
  predicate AnyFilterActive(f: Filters) {
    exists c :: Selected(f, c) != []
  }

  /** A filters record is its five lists: two records that select the same values
      in every category are the same record. */
  lemma FiltersAreTheirSelections(f: Filters, g: Filters)
    requires forall c :: Selected(f, c) == Selected(g, c)
    ensures f == g
  {
    assert Selected(f, Status) == Selected(g, Status);
    assert Selected(f, Project) == Selected(g, Project);
    assert Selected(f, Priority) == Selected(g, Priority);
    assert Selected(f, Assignee) == Selected(g, Assignee);
    assert Selected(f, Cycle) == Selected(g, Cycle);
  }

  /** Category names are distinct, and parsing a category's name gives it back. */
  lemma CategoryNameRoundTrip(c: Category, d: Category)
    ensures ParseCategory(CategoryName(c)) == Some(c)
    ensures CategoryName(c) == CategoryName(d) ==> c == d
  {
  }
}
