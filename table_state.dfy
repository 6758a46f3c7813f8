/** The view-state store of src/atoms/tableState.ts: eight independently
    stored slices with documented defaults, a dark-mode flag, an aggregate
    read that composes the slices and an aggregate write that applies a
    partial update slice by slice. */
module TableStore {
  import opened Collections
  import opened IssueTypes

  /** `defaultTableState`. */
  const DefaultState := TableState("", None, Asc, EmptyFilters, None, 0, 10, None)

  /** The independently stored values: the eight slices and the dark-mode flag. */
  datatype Slot =
    | SearchSlot | SortFieldSlot | SortDirectionSlot | FiltersSlot
    | GroupBySlot | PageSlot | PageSizeSlot | OpenIssueIdSlot | DarkModeSlot

  /** The storage key under which each slot persists. */
  function StorageKey(s: Slot): string {
    match s
    case SearchSlot => "issues-search"
    case SortFieldSlot => "issues-sort-field"
    case SortDirectionSlot => "issues-sort-direction"
    case FiltersSlot => "issues-filters"
    case GroupBySlot => "issues-groupBy"
    case PageSlot => "issues-page"
    case PageSizeSlot => "issues-pageSize"
    case OpenIssueIdSlot => "issues-openIssueId"
    case DarkModeSlot => "dark-mode"
  }

  /** No two slots share a storage key, so writing one slot cannot overwrite another. */
  lemma StorageKeysDistinct(a: Slot, b: Slot)
    ensures StorageKey(a) == StorageKey(b) ==> a == b
  {
  }

  /** `Partial<TableState>`: `None` is an absent (undefined) field. For the nullable
      slices `Some(None)` is an explicit null, which is present and clears the slice. */
  datatype Update = Update(
    search: Option<string>,
    sortField: Option<Option<SortField>>,
    sortDirection: Option<SortDirection>,
    filters: Option<Filters>,
    groupBy: Option<Option<Category>>,
    page: Option<nat>,
    pageSize: Option<PageSize>,
    openIssueId: Option<Option<string>>)

  const NoChange := Update(None, None, None, None, None, None, None, None)

  function Or<T>(o: Option<T>, otherwise: T): T {
    if o.Some? then o.value else otherwise
  }

  /** The aggregate state after the conditional per-slice writes of the aggregate
      setter: a slice changes only to the value the update carries for it. */
  function Apply(s: TableState, u: Update): (r: TableState)
    ensures r.search != s.search ==> u.search == Some(r.search)
    ensures r.sortField != s.sortField ==> u.sortField == Some(r.sortField)
    ensures r.sortDirection != s.sortDirection ==> u.sortDirection == Some(r.sortDirection)
    ensures r.filters != s.filters ==> u.filters == Some(r.filters)
    ensures r.groupBy != s.groupBy ==> u.groupBy == Some(r.groupBy)
    ensures r.page != s.page ==> u.page == Some(r.page)
    ensures r.pageSize != s.pageSize ==> u.pageSize == Some(r.pageSize)
    ensures r.openIssueId != s.openIssueId ==> u.openIssueId == Some(r.openIssueId)
  {
    TableState(
      Or(u.search, s.search),
      Or(u.sortField, s.sortField),
      Or(u.sortDirection, s.sortDirection),
      Or(u.filters, s.filters),
      Or(u.groupBy, s.groupBy),
      Or(u.page, s.page),
      Or(u.pageSize, s.pageSize),
      Or(u.openIssueId, s.openIssueId))
  }

  /** Every present field is read back as written; every absent one as it was. */
  lemma ApplyReadBack(s: TableState, u: Update)
    ensures Apply(s, u).search == if u.search.Some? then u.search.value else s.search
    ensures Apply(s, u).sortField == if u.sortField.Some? then u.sortField.value else s.sortField
    ensures Apply(s, u).sortDirection == if u.sortDirection.Some? then u.sortDirection.value else s.sortDirection
    ensures Apply(s, u).filters == if u.filters.Some? then u.filters.value else s.filters
    ensures Apply(s, u).groupBy == if u.groupBy.Some? then u.groupBy.value else s.groupBy
    ensures Apply(s, u).page == if u.page.Some? then u.page.value else s.page
    ensures Apply(s, u).pageSize == if u.pageSize.Some? then u.pageSize.value else s.pageSize
    ensures Apply(s, u).openIssueId == if u.openIssueId.Some? then u.openIssueId.value else s.openIssueId
  {
  }

  /** A state whose every slice is the update's value when present, and the old
      value otherwise, is the update's result. */
  lemma ApplyFromFields(s: TableState, u: Update, t: TableState)
    requires t.search == Or(u.search, s.search) && t.sortField == Or(u.sortField, s.sortField)
    requires t.sortDirection == Or(u.sortDirection, s.sortDirection) && t.filters == Or(u.filters, s.filters)
    requires t.groupBy == Or(u.groupBy, s.groupBy) && t.page == Or(u.page, s.page)
    requires t.pageSize == Or(u.pageSize, s.pageSize) && t.openIssueId == Or(u.openIssueId, s.openIssueId)
    ensures Apply(s, u) == t
  {
  }

  /** An explicit null clears sortField, groupBy and openIssueId. */
  lemma ApplyNullClears(s: TableState, u: Update)
    requires u.sortField == Some(None) && u.groupBy == Some(None) && u.openIssueId == Some(None)
    ensures Apply(s, u).sortField.None? && Apply(s, u).groupBy.None? && Apply(s, u).openIssueId.None?
  {
  }

  /** The empty update changes nothing. */
  lemma ApplyNoChange(s: TableState)
    ensures Apply(s, NoChange) == s
  {
  }

  /** Applying the same update twice equals applying it once. */
  lemma ApplyIdempotent(s: TableState, u: Update)
    ensures Apply(Apply(s, u), u) == Apply(s, u)
  {
  }

  /** The store: one field per stored slot. */
  class ViewStore {
    var search: string
    var sortField: Option<SortField>
    var sortDirection: SortDirection
    var filters: Filters
    var groupBy: Option<Category>
    var page: nat
    var pageSize: PageSize
    var openIssueId: Option<string>
    var darkMode: bool

    /** A store with nothing persisted: every slot holds its default. */
    constructor ()
      ensures Read() == DefaultState && !darkMode
    {
      search := "";
      sortField := None;
      sortDirection := Asc;
      filters := EmptyFilters;
      groupBy := None;
      page := 0;
      pageSize := 10;
      openIssueId := None;
      darkMode := false;
    }

    /** The aggregate read: exactly the eight slices; the dark-mode flag is not part of it. */
    function Read(): (r: TableState)
      reads this
      ensures r.search == search && r.sortField == sortField && r.sortDirection == sortDirection
      ensures r.filters == filters && r.groupBy == groupBy && r.page == page
      ensures r.pageSize == pageSize && r.openIssueId == openIssueId
    {
      TableState(search, sortField, sortDirection, filters, groupBy, page, pageSize, openIssueId)
    }

    /** The aggregate write: each field present in `u` is written to its own slice. */
    method Write(u: Update)
      modifies this
      ensures Read() == Apply(old(Read()), u)
      ensures darkMode == old(darkMode)
    {
      WriteQuerySlices(u);
      WriteViewSlices(u);
      ApplyFromFields(old(Read()), u, Read());
    }

    /** The first four writes: search, sort field, sort direction and filters. */
    method WriteQuerySlices(u: Update)
      modifies this
      ensures search == Or(u.search, old(search))
      ensures sortField == Or(u.sortField, old(sortField))
      ensures sortDirection == Or(u.sortDirection, old(sortDirection))
      ensures filters == Or(u.filters, old(filters))
      ensures groupBy == old(groupBy) && page == old(page)
      ensures pageSize == old(pageSize) && openIssueId == old(openIssueId)
      ensures darkMode == old(darkMode)
    {
      if u.search.Some? { search := u.search.value; }
      if u.sortField.Some? { sortField := u.sortField.value; }
      if u.sortDirection.Some? { sortDirection := u.sortDirection.value; }
      if u.filters.Some? { filters := u.filters.value; }
    }

    /** The last four writes: grouping, page, page size and the open issue. */
    method WriteViewSlices(u: Update)
      modifies this
      ensures groupBy == Or(u.groupBy, old(groupBy))
      ensures page == Or(u.page, old(page))
      ensures pageSize == Or(u.pageSize, old(pageSize))
      ensures openIssueId == Or(u.openIssueId, old(openIssueId))
      ensures search == old(search) && sortField == old(sortField)
      ensures sortDirection == old(sortDirection) && filters == old(filters)
      ensures darkMode == old(darkMode)
    {
      if u.groupBy.Some? { groupBy := u.groupBy.value; }
      if u.page.Some? { page := u.page.value; }
      if u.pageSize.Some? { pageSize := u.pageSize.value; }
      if u.openIssueId.Some? { openIssueId := u.openIssueId.value; }
    }
  }
}
