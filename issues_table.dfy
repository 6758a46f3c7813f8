/** The issues table of src/components/IssuesTable.tsx: the derived view
    (filter, sort, group, page, empty-state message) and the handlers with
    which the header buttons, the filter popovers, the group-by selector, the
    group rows and the pagination controls change the view state. */
module IssuesTable {
  import opened Collections
  import opened IssueTypes
  import opened TableStore
  import opened IssuesFilter
  import opened IssuesSort
  import opened IssuesGroup
  import opened IssuesPaging

  // ----- column sort header -----

  /** The direction a click on column `col`'s header selects: "desc" when the
      table is already sorted by `col` ascending, "asc" otherwise. */
  function ClickedDirection(field: Option<SortField>, dir: SortDirection, col: SortField): (r: SortDirection)
    ensures field == Some(col) ==> r != dir
    ensures field != Some(col) ==> r == Asc
  {
    if field == Some(col) && dir == Asc then Desc else Asc
  }

  /** The sort field and direction after `k` clicks on the header of `col`. */
  function Clicks(field: Option<SortField>, dir: SortDirection, col: SortField, k: nat): (Option<SortField>, SortDirection) {
    if k == 0 then (field, dir)
    else
      var previous := Clicks(field, dir, col, k - 1);
      (Some(col), ClickedDirection(previous.0, previous.1, col))
  }

  /** Once clicked, a column stays the sort field, and repeated clicks alternate
      between "asc" and "desc", starting with "desc" only when the table was
      already sorted by that column ascending; the table never becomes unsorted. */
  lemma {:induction false} ClicksAlternate(field: Option<SortField>, dir: SortDirection, col: SortField, k: nat)
    requires k >= 1
    ensures Clicks(field, dir, col, k).0 == Some(col)
    ensures Clicks(field, dir, col, k).1 ==
      if (k % 2 == 1) == !(field == Some(col) && dir == Asc) then Asc else Desc
  {
    if k > 1 {
      ClicksAlternate(field, dir, col, k - 1);
    }
  }

  // ----- filter popovers -----

  function IsNot(option: string): string -> bool {
    (v: string) => v != option
  }

  /** A checkbox change in one popover: checking appends the option, unchecking
      removes every occurrence of it. */
  function SelectionChange(selected: seq<string>, option: string, checked: bool): (r: seq<string>)
    ensures option in r <==> checked
    ensures forall x :: x in r ==> x in selected || x == option
  {
    if checked then selected + [option] else Keep(selected, IsNot(option))
  }

  /** A checked option is selected, and an issue with that value passes the category
      test; an unchecked option is no longer selected while every other selected
      value stays, as often as before and in order. */
  lemma SelectionChangeSpec(selected: seq<string>, option: string, checked: bool, v: string)
    ensures checked ==> option in SelectionChange(selected, option, true)
    ensures multiset(SelectionChange(selected, option, true)) == multiset(selected) + multiset{option}
    ensures SelectionChange(selected, option, true)[..|selected|] == selected
    ensures !checked ==> option !in SelectionChange(selected, option, false)
    ensures !checked ==> IsSubsequence(SelectionChange(selected, option, false), selected)
    ensures !checked && v != option ==>
      multiset(SelectionChange(selected, option, false))[v] == multiset(selected)[v]
  {
    if !checked {
      KeepMember(selected, IsNot(option), option);
      KeepIsSubsequence(selected, IsNot(option));
      KeepCount(selected, IsNot(option), v);
    }
  }

  /** Unchecking an option that was just checked restores the selection, when the
      option had not been selected before. */
  lemma UncheckUndoesCheck(selected: seq<string>, option: string)
    requires option !in selected
    ensures SelectionChange(SelectionChange(selected, option, true), option, false) == selected
  {
    KeepAppend(selected, [option], IsNot(option));
    KeepAll(selected, IsNot(option));
  }

  /** After checking an issue's own value in a category, the issue passes that category's test. */
  lemma CheckedValuePasses(x: Issue, f: Filters, c: Category)
    ensures CategoryMatches(x, WithSelected(f, c, SelectionChange(Selected(f, c), Value(x, c), true)), c)
  {
    assert Value(x, c) in Selected(f, c) + [Value(x, c)];
  }

  /** `clearAllFilters`: empties every category list and the search, nothing else. */
  function ClearAll(st: TableState): (r: TableState)
    ensures forall c :: Selected(r.filters, c) == []
    ensures r.search == ""
    ensures r.(filters := st.filters, search := st.search) == st
  {
    st.(filters := EmptyFilters, search := "")
  }

  /** After clearing all filters every issue is shown again. */
  lemma ClearAllShowsAll(issues: seq<Issue>, st: TableState)
    ensures Filter(issues, ClearAll(st).search, ClearAll(st).filters) == issues
  {
    FilterInactive(issues);
  }

  // ----- group-by selector -----

  /** The selector's value: the group-by attribute, or "none". */
  function SelectValue(g: Option<Category>): string {
    if g.Some? then CategoryName(g.value) else "none"
  }

  /** The group-by a selector value stands for: "none" is no grouping. */
  function GroupByChoice(value: string): (r: Option<Category>)
    requires value == "none" || ParseCategory(value).Some?
    ensures r.None? <==> value == "none"
    ensures r.Some? ==> CategoryName(r.value) == value
  {
    if value == "none" then None else ParseCategory(value)
  }

  /** Choosing the selector's own value for a grouping gives that grouping back. */
  lemma GroupByChoiceInvertsSelectValue(g: Option<Category>)
    ensures SelectValue(g) == "none" || ParseCategory(SelectValue(g)).Some?
    ensures GroupByChoice(SelectValue(g)) == g
  {
    if g.Some? {
      match g.value
      case Status =>
      case Project =>
      case Priority =>
      case Assignee =>
      case Cycle =>
    }
  }

  // ----- the derived view -----

  /** The two empty-state messages: "No issues match your filters" and "No issues found". */
  datatype EmptyMessage = NoMatch | NoIssues

  /** The empty-state row: shown when the body lists no issue; which message it
      shows depends only on whether a search or a category filter is active. */
  function EmptyState(rows: seq<Issue>, search: string, f: Filters): (r: Option<EmptyMessage>)
    ensures r.Some? <==> rows == []
    ensures r == Some(NoIssues) ==> search == "" && forall c :: Selected(f, c) == []
    ensures r == Some(NoIssues) <==> rows == [] && search == "" && !AnyFilterActive(f)
  {
    if rows != [] then None
    else if search != "" || AnyFilterActive(f) then Some(NoMatch)
    else Some(NoIssues)
  }

  /** A group's header row (key and size) and the rows shown below it. */
  datatype GroupRow = GroupRow(key: string, count: nat, rows: seq<Issue>)

  /** The table body: the current page of the flat list, or one entry per group. */
  datatype Body = Flat(rows: seq<Issue>) | Grouped(groups: seq<GroupRow>)

  /** A group's entry: its size, and when it is expanded the current page's
      slice of its rows (`groupIssues.slice(page * pageSize, (page + 1) * pageSize)`). */
  function Entry(key: string, members: seq<Issue>, expanded: set<string>, page: nat, size: nat): GroupRow {
    GroupRow(key, |members|, if key in expanded then Page(members, page, size) else [])
  }

  /** The entry of group `key` of `sorted`. */
  function ShownGroup(sorted: seq<Issue>, c: Category, key: string, expanded: set<string>, page: nat, size: nat): GroupRow {
    Entry(key, Members(sorted, c, key), expanded, page, size)
  }

  /** The rendering pipeline: `filteredData`, `sortedData`, `groupedData` and
      `paginatedData`, and the empty-state row. */
  method Render(issues: seq<Issue>, st: TableState, expanded: set<string>)
    returns (filtered: seq<Issue>, sorted: seq<Issue>, body: Body, message: Option<EmptyMessage>)
    ensures filtered == Filter(issues, st.search, st.filters)
    ensures st.sortField.None? ==> sorted == filtered
    ensures st.sortField.Some? ==> OrderedBy(sorted, st.sortField.value, st.sortDirection)
    ensures multiset(sorted) == multiset(filtered)
    ensures st.groupBy.None? ==> body == Flat(Page(sorted, st.page, st.pageSize))
    ensures st.groupBy.Some? ==> body.Grouped? && ShowsGroups(body.groups, sorted, st.groupBy.value, expanded, st.page, st.pageSize)
    ensures message == EmptyState(
      if st.groupBy.Some? then Flatten(sorted, st.groupBy.value, Options(sorted, st.groupBy.value))
      else Page(sorted, st.page, st.pageSize),
      st.search, st.filters)
  {
    filtered := Filter(issues, st.search, st.filters);
    sorted := SortedView(filtered, st.sortField, st.sortDirection);
    if st.groupBy.None? {
      var rows := Page(sorted, st.page, st.pageSize);
      body := Flat(rows);
      message := EmptyState(rows, st.search, st.filters);
      return;
    }
    var c := st.groupBy.value;
    var keys, groups := GroupBy(sorted, c);
    var entries, all := RenderGroups(keys, groups, sorted, c, expanded, st.page, st.pageSize);
    body := Grouped(entries);
    message := EmptyState(all, st.search, st.filters);
  }

  /** `entries` lists every group of `sorted` in key order, as `ShownGroup` describes it. */
  ghost predicate ShowsGroups(entries: seq<GroupRow>, sorted: seq<Issue>, c: Category, expanded: set<string>, page: nat, size: nat) {
    && |entries| == |Options(sorted, c)|
    && forall i :: 0 <= i < |entries| ==>
         entries[i] == ShownGroup(sorted, c, Options(sorted, c)[i], expanded, page, size)
  }

  /** The grouped body: one header row per group, in key order, followed by the
      current page of the group's rows when the group is expanded; `all` is
      every group's rows one after the other. */
  method RenderGroups(keys: seq<string>, groups: map<string, seq<Issue>>, ghost sorted: seq<Issue>, ghost c: Category,
                      expanded: set<string>, page: nat, size: nat)
    returns (entries: seq<GroupRow>, all: seq<Issue>)
    requires forall k :: k in keys ==> k in groups && groups[k] == Members(sorted, c, k)
    ensures |entries| == |keys|
    ensures forall i :: 0 <= i < |keys| ==> entries[i] == ShownGroup(sorted, c, keys[i], expanded, page, size)
    ensures all == Flatten(sorted, c, keys)
  {
    entries, all := [], [];
    for i := 0 to |keys|
      invariant |entries| == i
      invariant forall j :: 0 <= j < i ==> entries[j] == ShownGroup(sorted, c, keys[j], expanded, page, size)
      invariant all == Flatten(sorted, c, keys[..i])
    {
      var key := keys[i];
      var members := groups[key];
      entries := entries + [Entry(key, members, expanded, page, size)];
      FlattenPrefix(sorted, c, keys, i);
      all := all + members;
    }
    assert keys[..|keys|] == keys;
  }

  /** The empty-state row appears in the grouped view exactly when no issue passes
      the filters, and in the flat view exactly when the page starts at or past
      the end of the filtered list, even when that list is not empty. */
  lemma EmptyStateCondition(filtered: seq<Issue>, sorted: seq<Issue>, st: TableState)
    requires multiset(sorted) == multiset(filtered)
    ensures st.groupBy.Some? ==>
      (Flatten(sorted, st.groupBy.value, Options(sorted, st.groupBy.value)) == [] <==> filtered == [])
    ensures st.groupBy.None? ==> (Page(sorted, st.page, st.pageSize) == [] <==> st.page * st.pageSize >= |filtered|)
  {
    assert |sorted| == |multiset(sorted)| == |multiset(filtered)| == |filtered|;
    if st.groupBy.Some? {
      GroupsArePermutation(sorted, st.groupBy.value);
    }
    PageSpec(sorted, st.page, st.pageSize);
  }

  /** The table's own state (the expanded groups) and the store it drives. */
  class TableComponent {
    const store: ViewStore
    var expandedGroups: set<string>

    constructor (store: ViewStore)
      ensures this.store == store && expandedGroups == {}
    {
      this.store := store;
      expandedGroups := {};
    }

    /** A click on the header of `col`. */
    method ClickHeader(col: SortField)
      modifies store
      ensures store.Read() == old(store.Read()).(
        sortField := Some(col),
        sortDirection := ClickedDirection(old(store.sortField), old(store.sortDirection), col))
      ensures store.darkMode == old(store.darkMode)
    {
      var isCurrentSort := store.sortField == Some(col);
      store.sortField := Some(col);
      store.sortDirection := if isCurrentSort && store.sortDirection == Asc then Desc else Asc;
    }

    /** A checkbox change in the popover of category `c`: only that category's list changes. */
    method ChangeSelection(c: Category, option: string, checked: bool)
      modifies store
      ensures store.Read() == old(store.Read()).(
        filters := WithSelected(old(store.filters), c, SelectionChange(Selected(old(store.filters), c), option, checked)))
      ensures store.darkMode == old(store.darkMode)
    {
      var selected := Selected(store.filters, c);
      var values := if checked then selected + [option] else Keep(selected, IsNot(option));
      store.filters := WithSelected(store.filters, c, values);
    }

    /** "Clear filters" in the popover of category `c`. */
    method ClearSelection(c: Category)
      modifies store
      ensures store.Read() == old(store.Read()).(filters := WithSelected(old(store.filters), c, []))
      ensures store.darkMode == old(store.darkMode)
    {
      store.filters := WithSelected(store.filters, c, []);
    }

    /** The "Clear all filters" button. */
    method ClearAllFilters()
      modifies store
      ensures store.Read() == ClearAll(old(store.Read()))
      ensures store.darkMode == old(store.darkMode)
    {
      store.filters := Filters([], [], [], [], []);
      store.search := "";
    }

    /** Typing in the search box. */
    method SetSearch(text: string)
      modifies store
      ensures store.Read() == old(store.Read()).(search := text)
      ensures store.darkMode == old(store.darkMode)
    {
      store.search := text;
    }

    /** A click on an issue row opens its detail sheet. */
    method OpenIssue(issue: Issue)
      modifies store
      ensures store.Read() == old(store.Read()).(openIssueId := Some(issue.identifier))
      ensures store.darkMode == old(store.darkMode)
    {
      store.openIssueId := Some(issue.identifier);
    }

    /** A click on a group's header row: a copy of the set with the key added or removed. */
    method ToggleGroupExpansion(key: string)
      modifies this
      ensures expandedGroups == Toggle(old(expandedGroups), key)
    {
      var newSet := expandedGroups;
      if key in newSet {
        newSet := newSet - {key};
      } else {
        newSet := newSet + {key};
      }
      expandedGroups := newSet;
    }

    /** A choice in the group-by selector: sets the grouping and collapses every group. */
    method ChangeGroupBy(value: string)
      requires value == "none" || ParseCategory(value).Some?
      modifies this, store
      ensures store.Read() == old(store.Read()).(groupBy := GroupByChoice(value))
      ensures expandedGroups == {}
      ensures store.darkMode == old(store.darkMode)
    {
      store.groupBy := if value == "none" then None else ParseCategory(value);
      expandedGroups := {};
    }

    /** A choice in the rows-per-page selector: sets the size and returns to the first page. */
    method ChangePageSize(size: PageSize)
      modifies store
      ensures store.Read() == old(store.Read()).(pageSize := size, page := 0)
      ensures store.darkMode == old(store.darkMode)
    {
      store.pageSize := size;
      store.page := 0;
    }

    /** "Go to first page"; disabled on the first page. */
    method FirstPage()
      modifies store
      ensures store.Read() == old(store.Read()).(page := 0)
      ensures store.darkMode == old(store.darkMode)
    {
      if !BackDisabled(store.page) {
        store.page := 0;
      }
    }

    /** "Go to previous page"; disabled on the first page. */
    method PreviousPage()
      modifies store
      ensures BackDisabled(old(store.page)) ==> store.Read() == old(store.Read())
      ensures !BackDisabled(old(store.page)) ==> store.Read() == old(store.Read()).(page := old(store.page) - 1)
      ensures store.darkMode == old(store.darkMode)
    {
      if !BackDisabled(store.page) {
        store.page := store.page - 1;
      }
    }

    /** "Go to next page" over `filteredCount` filtered issues; disabled from the last page on. */
    method NextPage(filteredCount: nat)
      modifies store
      ensures ForwardDisabled(old(store.page), filteredCount, old(store.pageSize)) ==> store.Read() == old(store.Read())
      ensures !ForwardDisabled(old(store.page), filteredCount, old(store.pageSize)) ==>
        store.Read() == old(store.Read()).(page := old(store.page) + 1)
      ensures store.darkMode == old(store.darkMode)
    {
      if !ForwardDisabled(store.page, filteredCount, store.pageSize) {
        store.page := store.page + 1;
      }
    }

    /** "Go to last page" over `filteredCount` filtered issues; disabled from the last page on. */
    method LastPage(filteredCount: nat)
      modifies store
      ensures ForwardDisabled(old(store.page), filteredCount, old(store.pageSize)) ==> store.Read() == old(store.Read())
      ensures !ForwardDisabled(old(store.page), filteredCount, old(store.pageSize)) ==>
        store.page == IssuesPaging.LastPage(filteredCount, old(store.pageSize))
        && store.Read() == old(store.Read()).(page := store.page)
      ensures store.darkMode == old(store.darkMode)
    {
      if !ForwardDisabled(store.page, filteredCount, store.pageSize) {
        store.page := CeilDiv(filteredCount, store.pageSize) - 1;
      }
    }
  }
}
