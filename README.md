# issues-dashboard view-state model

A Dafny model of the view-state machinery of the issues dashboard: the table
that filters, sorts, groups and pages a list of issues; the handlers with
which its header buttons, filter popovers, group-by selector, group rows and
pagination controls change the view state; the store that keeps that state as
eight separately persisted slices; the hook that mirrors three of the slices in
the URL query string; and the summary counters above the table.

Modules follow the source files:

- `IssueTypes` (`issue_types.dfy`): the records of `src/types/Issue.ts`.
- `TableStore` (`table_state.dfy`): `src/atoms/tableState.ts`. The store is a
  class with one field per slice; the aggregate read composes them and the
  aggregate write applies a partial update slice by slice.
- `URLSync` (`url_sync.dfy`): `src/hooks/useURLSync.ts`. The query string is a
  list of (name, value) pairs whose `get`, `set` and `delete` follow the
  URLSearchParams class (section 6.2 of the WHATWG URL Standard). The hook is a
  class over the store and the browser history; the inbound effect adopts the
  URL once, the outbound effect rewrites the three tracked parameters and
  replaces the current history entry.
- `IssuesFilter`, `IssuesSort`, `IssuesGroup`, `IssuesPaging`, `IssuesTable`
  (`issues_*.dfy`): `src/components/IssuesTable.tsx`, one module per stage of
  the derived view plus one for the handlers and the whole pipeline. The sort
  copies the filtered rows into an array and sorts it in place; the grouping is
  a loop that fills a map and records the key order.
- `Dashboard` (`dashboard.dfy`): the counters of `src/pages/Index.tsx`.
- `Collections`, `Text`: list and string helpers (JavaScript `filter`, `Set`
  iteration order, ASCII `toLowerCase`, `includes`, string `<`).

One consequence of the code worth knowing, stated by
`IssuesTable.EmptyStateCondition`: in the flat view the empty-state row
appears whenever the current page starts at or past the end of the filtered
list, even when that list is not empty. Editing the search or a filter does
not reset the page, so narrowing the list while on a later page shows "No
issues match your filters" above a "N of M issues" count with N > 0. In the
grouped view the row depends only on the filtered list being empty, while each
expanded group still shows the slice of the flat view's current page.

## Model

| member | source | states |
|---|---|---|
| IssueTypes.ParseCategory | src/hooks/useURLSync.ts:24-26 | a string names a category iff it is that category's attribute name, and then it names exactly that category |
| IssueTypes.WithSelected | src/components/IssuesTable.tsx:550-584 | replacing one category's list sets that list and leaves the four others unchanged |
| IssueTypes.FiltersAreTheirSelections | src/types/Issue.ts:24-30 | a filters record is exactly its five category lists |
| IssueTypes.CategoryNameRoundTrip | src/components/IssuesTable.tsx:622-627 | the five attribute names are distinct and each parses back to its category |
| TableStore.StorageKeysDistinct | src/atoms/tableState.ts:22-52 | the eight slices and the dark-mode flag persist under pairwise different keys |
| TableStore.Apply | src/atoms/tableState.ts:65-77 | a partial write changes a slice only to the value the update carries for it; absent slices keep their value |
| TableStore.ApplyFromFields | src/atoms/tableState.ts:65-77 | a state whose every slice is the update's value where present and the old value elsewhere is the result of the write |
| TableStore.ApplyReadBack | src/atoms/tableState.ts:65-77 | after a partial write every present field reads back as written and every absent one as before |
| TableStore.ApplyNullClears | src/atoms/tableState.ts:65-77 | an explicit null is present and clears sortField, groupBy and openIssueId |
| TableStore.ApplyNoChange | src/atoms/tableState.ts:65-77 | the empty partial update changes nothing |
| TableStore.ApplyIdempotent | src/atoms/tableState.ts:65-77 | writing the same partial update twice equals writing it once |
| TableStore.ViewStore.constructor | src/atoms/tableState.ts:5-52 | with nothing stored, the aggregate state is the documented default (empty search, unsorted, asc, empty filters, ungrouped, page 0, size 10, no open issue) and dark mode is off |
| TableStore.ViewStore.Read | src/atoms/tableState.ts:55-64 | the aggregate state holds exactly the eight slices, each under its own name; the dark-mode flag is not part of it |
| TableStore.ViewStore.Write | src/atoms/tableState.ts:54-77 | the aggregate of the eight slices after the write is the old aggregate with the update applied; the dark-mode flag, which is not part of the aggregate, is untouched |
| TableStore.ViewStore.WriteQuerySlices | src/atoms/tableState.ts:66-71 | search, sort field, sort direction and filters each take the update's value when present and keep theirs otherwise; the other slices and dark mode are untouched |
| TableStore.ViewStore.WriteViewSlices | src/atoms/tableState.ts:72-76 | grouping, page, page size and open issue each take the update's value when present and keep theirs otherwise; the other slices and dark mode are untouched |
| URLSync.Get | src/hooks/useURLSync.ts:14-16 | `get(n)` is null iff no pair is named n; otherwise it is the value of the first pair named n |
| URLSync.Delete | src/hooks/useURLSync.ts:35 | `delete(n)` keeps exactly the pairs not named n, in their order |
| URLSync.Set | src/hooks/useURLSync.ts:33 | after `set(n, v)` the pairs are those not named n plus (n, v) |
| URLSync.SetAppends | src/hooks/useURLSync.ts:33 | with no pair named n, `set(n, v)` appends (n, v) at the end |
| URLSync.SetReplacesFirst | src/hooks/useURLSync.ts:33 | when the first pair named n is at k, `set(n, v)` keeps the pairs before k, puts (n, v) at k and drops the later pairs named n |
| URLSync.SetOrDelete | src/hooks/useURLSync.ts:32-36 | one step keeps the pairs of other names and leaves the name with the pair (n, value) when the slice is truthy and none otherwise |
| URLSync.Outbound | src/hooks/useURLSync.ts:30-48 | the rewritten query string holds exactly the old pairs with untracked names and one pair per truthy tracked slice, carrying its value |
| URLSync.NamedOfSet | src/hooks/useURLSync.ts:33 | after `set(n, v)` exactly one pair is named n, and it carries v |
| URLSync.NamedOfDelete | src/hooks/useURLSync.ts:35 | after `delete(n)` no pair is named n |
| URLSync.SetKeepsOthers | src/hooks/useURLSync.ts:33 | `set(n, v)` leaves the pairs of every other name as they were, in order |
| URLSync.DeleteKeepsOthers | src/hooks/useURLSync.ts:35 | `delete(n)` leaves the pairs of every other name as they were, in order |
| URLSync.SetNoop | src/hooks/useURLSync.ts:33 | `set(n, v)` changes nothing when (n, v) is already the only pair named n |
| URLSync.DeleteNoop | src/hooks/useURLSync.ts:35 | `delete(n)` changes nothing when no pair is named n |
| URLSync.NamedOfSetOrDelete | src/hooks/useURLSync.ts:32-36 | after one set-or-delete step the name holds one pair with the slice's value if it is truthy, and none otherwise |
| URLSync.SetOrDeleteKeepsOthers | src/hooks/useURLSync.ts:32-36 | a set-or-delete step leaves every other name's pairs unchanged |
| URLSync.SetOrDeleteNoop | src/hooks/useURLSync.ts:32-36 | a set-or-delete step on a name already in that form changes nothing |
| URLSync.OutboundNamed | src/hooks/useURLSync.ts:32-48 | after the rewrite `issueId`, `search` and `groupBy` each hold one pair with the slice's value when it is truthy and none otherwise |
| URLSync.OutboundReflectsState | src/hooks/useURLSync.ts:32-48 | `get` of each tracked name after the rewrite is the slice's value when truthy and null otherwise; an empty value is never written |
| URLSync.OutboundKeepsUntracked | src/hooks/useURLSync.ts:30 | every pair with an untracked name survives the rewrite, in order |
| URLSync.OutboundIdempotent | src/hooks/useURLSync.ts:30-50 | rewriting again from the same state leaves the query string unchanged |
| URLSync.Adopt | src/hooks/useURLSync.ts:13-27 | adoption changes only openIssueId, search and groupBy; a present, non-empty URL value is adopted by its slice (for groupBy, when it names an attribute), and a slice changes only to such a value |
| URLSync.AdoptFields | src/hooks/useURLSync.ts:18-26 | adoption slice by slice: each slice takes its URL value exactly when that value is present, non-empty and different |
| URLSync.AdoptAfterOutbound | src/hooks/useURLSync.ts:13-51 | adopting the query string the outbound rewrite produced from a state changes nothing in that state |
| URLSync.AdoptIdempotent | src/hooks/useURLSync.ts:13-27 | adopting the same URL twice equals adopting it once |
| URLSync.History.Replace | src/hooks/useURLSync.ts:50 | the current history entry is overwritten and no entry is added |
| URLSync.URLSyncHook.constructor | src/hooks/useURLSync.ts:7-11 | the hook starts over its store and history without having run the mount-time adoption |
| URLSync.URLSyncHook.RunInbound | src/hooks/useURLSync.ts:13-27 | the first run sets the store to the adoption of the current URL; every later run changes nothing |
| URLSync.URLSyncHook.AdoptURL | src/hooks/useURLSync.ts:14-26 | the three conditional writes leave the store holding the adoption of the given query string; dark mode is untouched |
| URLSync.URLSyncHook.RunOutbound | src/hooks/useURLSync.ts:29-51 | the current history entry becomes the outbound rewrite of the old one for the store's state; the earlier entries and the history length are unchanged |
| IssuesFilter.MatchesAllCategories | src/components/IssuesTable.tsx:126-153 | an issue passes iff it passes the search test and every one of the five category tests |
| IssuesFilter.Filter | src/components/IssuesTable.tsx:125-154 | an issue is in the filtered list iff it is among the issues and passes the search test and all five category tests |
| IssuesFilter.FilterIsSubsequence | src/components/IssuesTable.tsx:125-154 | the filtered list is a subsequence of the issues, in their original order |
| IssuesFilter.FilterKeepsExactlyMatches | src/components/IssuesTable.tsx:125-154 | an issue is in the filtered list, with all its occurrences, iff the search is empty or occurs case-insensitively in its title or identifier and every category list is empty or holds its value |
| IssuesFilter.FilterInactive | src/components/IssuesTable.tsx:125-154 | with an empty search and five empty lists the filtered list is the input |
| IssuesFilter.SearchIgnoresCase | src/components/IssuesTable.tsx:127-130 | lower-casing the search text does not change which issues match |
| IssuesFilter.SearchIsSubstring | src/components/IssuesTable.tsx:127-130 | the search is a substring test: "ENG-1" matches ENG-1 and ENG-10 but not ENG-2 |
| IssuesFilter.OptionsSpec | src/components/IssuesTable.tsx:115-123 | a value is offered iff some issue has it, each value once, in order of first occurrence |
| IssuesSort.KeyLessIsStrictTotal | src/components/IssuesTable.tsx:361-366 | `<` on one column's values is irreflexive, transitive and total up to equal values |
| IssuesSort.CompareSign | src/components/IssuesTable.tsx:360-369 | the comparator is -1, 0 or 1; 0 exactly for equal column values; negative exactly when a's value is below b's for "asc" and above it for "desc" |
| IssuesSort.CompareTransitive | src/components/IssuesTable.tsx:360-369 | the comparator's "not after" is transitive |
| IssuesSort.CompareFlip | src/components/IssuesTable.tsx:360-369 | swapping the arguments negates the comparator |
| IssuesSort.DescIsReversedAsc | src/components/IssuesTable.tsx:368 | "desc" compares a with b as "asc" compares b with a |
| IssuesSort.DescSortReversesAsc | src/components/IssuesTable.tsx:357-370 | on a column with no repeated value, a "desc" ordering of the same rows is exactly the reverse of the "asc" ordering |
| IssuesSort.OrderedMeansMonotone | src/components/IssuesTable.tsx:357-370 | a list ordered by the comparator is non-decreasing in the column for "asc" and non-increasing for "desc" |
| IssuesSort.SortInPlace | src/components/IssuesTable.tsx:360 | the in-place sort leaves the array ordered by the comparator and a permutation of what it held |
| IssuesSort.Insert | src/components/IssuesTable.tsx:360 | one insertion step leaves `a[..i + 1]` ordered and a permutation of the old `a[..i + 1]`, and `a[i + 1..]` untouched |
| IssuesSort.SortedView | src/components/IssuesTable.tsx:357-370 | with no sort field the filtered list comes back unchanged; otherwise a sorted copy that is a permutation of it |
| IssuesGroup.GroupBy | src/components/IssuesTable.tsx:372-383 | the keys are the distinct values of the group-by attribute in first-occurrence order, and each key's bucket holds exactly the rows with that value, in order |
| IssuesGroup.KeyListed | src/components/IssuesTable.tsx:375-380 | every row's value is one of the keys |
| IssuesGroup.BucketCount | src/components/IssuesTable.tsx:375-380 | a row is in the bucket of its own value with all its occurrences and in no other bucket |
| IssuesGroup.ListedIffNonEmpty | src/components/IssuesTable.tsx:372-383 | a key is listed iff its bucket is non-empty |
| IssuesGroup.GroupKeepsOrder | src/components/IssuesTable.tsx:375-380 | each bucket is a subsequence of the sorted rows, so any order between the sorted rows holds inside it |
| IssuesGroup.GroupsArePermutation | src/components/IssuesTable.tsx:743 | all buckets concatenated in key order are a permutation of the sorted rows, empty iff they are |
| IssuesGroup.Toggle | src/components/IssuesTable.tsx:385-395 | toggling flips the membership of the toggled key and of no other key |
| IssuesGroup.ToggleTwiceRestores | src/components/IssuesTable.tsx:385-395 | toggling the same key twice restores the set |
| IssuesPaging.CeilDiv | src/components/IssuesTable.tsx:793 | the page count is the least number of pages of the given size that hold every row |
| IssuesPaging.Slice | src/components/IssuesTable.tsx:428 | a slice holds the rows from its start up to its end clamped to the length, in order |
| IssuesPaging.Page | src/components/IssuesTable.tsx:423-429 | page k holds at most pageSize rows, and its i-th row is row k·pageSize + i of the list |
| IssuesPaging.PageSpec | src/components/IssuesTable.tsx:423-429 | page k holds at most pageSize rows, is the rows from k·pageSize on, and is empty iff k·pageSize ≥ n |
| IssuesPaging.PagesArePrefix | src/components/IssuesTable.tsx:423-429 | the first k pages concatenated are the first k·pageSize rows |
| IssuesPaging.PagesRebuild | src/components/IssuesTable.tsx:423-429 | pages 0 to ceil(n / pageSize) - 1 concatenated are the whole list |
| IssuesPaging.PageCount | src/components/IssuesTable.tsx:792-793 | the label's page count is ceil(n / pageSize), or 1 when there are no rows |
| IssuesPaging.ForwardTargetsHaveRows | src/components/IssuesTable.tsx:812-827 | when "next" and "last" are enabled, the next page has rows, and "last" moves forward to the last page with rows |
| IssuesPaging.ForwardEnabledIffMoreRows | src/components/IssuesTable.tsx:816 | "next" is enabled iff some row lies past the current page |
| IssuesPaging.EmptyListDisablesNavigation | src/components/IssuesTable.tsx:796-827 | with no rows "next" and "last" are disabled on every page, so "last" can never move to page ceil(0 / pageSize) - 1 = -1 |
| IssuesTable.ClicksAlternate | src/components/IssuesTable.tsx:181-186 | after k ≥ 1 clicks on a header the column is the sort field and the direction alternates, starting with "desc" iff the table was already sorted by it ascending; the table never becomes unsorted |
| IssuesTable.ClickedDirection | src/components/IssuesTable.tsx:181-186 | a click on the column already sorted reverses its direction; a click on any other column sorts ascending |
| IssuesTable.SelectionChange | src/components/IssuesTable.tsx:464-470 | the option is selected afterwards iff its box was checked, and no value outside the old selection and the option appears |
| IssuesTable.SelectionChangeSpec | src/components/IssuesTable.tsx:464-470 | checking keeps the old selection in order and appends the option once; unchecking removes every occurrence of it and keeps every other selected value, as often as before and in order |
| IssuesTable.UncheckUndoesCheck | src/components/IssuesTable.tsx:464-470 | unchecking an option just checked restores the selection when it was not selected before |
| IssuesTable.CheckedValuePasses | src/components/IssuesTable.tsx:464-470 | after checking an issue's own value, the issue passes that category's test |
| IssuesTable.ClearAll | src/components/IssuesTable.tsx:156-165 | clearing all filters empties all five lists and the search and changes nothing else |
| IssuesTable.ClearAllShowsAll | src/components/IssuesTable.tsx:156-165 | after clearing all filters every issue passes the filter |
| IssuesTable.GroupByChoice | src/components/IssuesTable.tsx:612-616 | "none" selects no grouping and every other offered value the attribute it names |
| IssuesTable.GroupByChoiceInvertsSelectValue | src/components/IssuesTable.tsx:612-627 | choosing the selector's displayed value for a grouping gives that grouping back |
| IssuesTable.EmptyState | src/components/IssuesTable.tsx:742-757 | the row shows iff the body lists no issue, and says "No issues found" iff moreover no search and no category filter is active, "No issues match your filters" otherwise |
| IssuesTable.Render | src/components/IssuesTable.tsx:125-429 | the filtered list, its sorted permutation, the current page in the flat view or every group's entry in key order, and the empty-state row computed from the page or from all groups flattened |
| IssuesTable.RenderGroups | src/components/IssuesTable.tsx:658-716 | one entry per key, in key order, with the group's size and, when expanded, the current page of its rows; plus all buckets flattened |
| IssuesTable.EmptyStateCondition | src/components/IssuesTable.tsx:742-748 | grouped, the empty-state row shows iff no issue passes the filters; flat, iff the page starts at or past the end of the filtered list |
| IssuesTable.TableComponent.constructor | src/components/IssuesTable.tsx:102 | no group starts expanded |
| IssuesTable.TableComponent.ClickHeader | src/components/IssuesTable.tsx:181-186 | the clicked column becomes the sort field with the clicked direction; nothing else changes |
| IssuesTable.TableComponent.ChangeSelection | src/components/IssuesTable.tsx:550-584 | only the popover's category list changes, by the checkbox change |
| IssuesTable.TableComponent.ClearSelection | src/components/IssuesTable.tsx:486-488 | only the popover's category list changes, to empty |
| IssuesTable.TableComponent.ClearAllFilters | src/components/IssuesTable.tsx:156-165 | the state becomes the old state with all filters and the search cleared |
| IssuesTable.TableComponent.SetSearch | src/components/IssuesTable.tsx:540 | only the search changes |
| IssuesTable.TableComponent.OpenIssue | src/components/IssuesTable.tsx:726 | only openIssueId changes, to the clicked issue's identifier |
| IssuesTable.TableComponent.ToggleGroupExpansion | src/components/IssuesTable.tsx:385-395 | the expanded set becomes the toggle of the old one at the key |
| IssuesTable.TableComponent.ChangeGroupBy | src/components/IssuesTable.tsx:613-616 | the grouping becomes the chosen one and every group is collapsed |
| IssuesTable.TableComponent.ChangePageSize | src/components/IssuesTable.tsx:772-775 | the page size becomes the chosen one and the page returns to 0 |
| IssuesTable.TableComponent.FirstPage | src/components/IssuesTable.tsx:799-800 | the page becomes 0 |
| IssuesTable.TableComponent.PreviousPage | src/components/IssuesTable.tsx:807-808 | on page 0 nothing changes, otherwise the page decreases by one |
| IssuesTable.TableComponent.NextPage | src/components/IssuesTable.tsx:815-816 | from page ceil(n / pageSize) - 1 on nothing changes, otherwise the page increases by one |
| IssuesTable.TableComponent.LastPage | src/components/IssuesTable.tsx:823-826 | from page ceil(n / pageSize) - 1 on nothing changes, otherwise the page becomes ceil(n / pageSize) - 1 |
| Dashboard.ComputeStats | src/pages/Index.tsx:16-23 | in-progress plus done issues, and urgent issues, are each at most the total |
| Dashboard.StatsSpec | src/pages/Index.tsx:16-23 | total is the number of issues; inProgress, done and urgent count the issues with status "In Progress", status "Done" and priority "Urgent"; inProgress + done and urgent are at most total |

## Left out

- Rendering: JSX, animations, colour maps, badges, tooltips, the loading skeleton, the error message, the issue detail sheet and the "N of M issues" label are presentation.
- `formatDate`: locale-dependent date display.
- `src/lib/dataClient.ts`: the issue list is a parameter of `IssuesTable.Render` and `Dashboard.ComputeStats`; query caching, delays and the JSON import are not modelled, nor is the single-issue lookup.
- `src/components/DarkModeToggle.tsx`: only the flag's default and its exclusion from the aggregate state are modelled; the DOM class toggle is not.
- The table library configuration (`useReactTable`, its `pageCount`): a foreign call whose results the table does not use for the rows it shows.
- Persistence: local storage, JSON encoding and the fallback for malformed stored values. Each slice is a field of `TableStore.ViewStore`; a stored page that is negative or fractional, or a stored page size that is not a positive integer, cannot be represented.
- Debouncing: the debounced search is taken to equal the search.
- React effect scheduling: the inbound and outbound effects are separate methods; the order in which React runs them, and when, is not modelled.
- Query-string encoding: parameter names and values are plain strings.
- Text.Lower: lower-cases ASCII letters only; full Unicode case mapping is not modelled.
- Text.Less: compares strings character by character, where JavaScript compares UTF-16 code units; the two differ only for characters outside the Basic Multilingual Plane.
- IssueTypes.Issue: `estimate` is an integer; JavaScript numbers (fractions, NaN) are not modelled.
- IssueTypes.SortField: sorting is modelled for the four columns with header buttons; a sort field naming another attribute (such as `labels`) cannot be represented.
- IssuesSort.SortedView: the engine's sort algorithm is modelled by an insertion sort; only ordering and permutation are stated, not which of several equal-keyed orders results.
- IssuesGroup.GroupBy: keys are stated in first-occurrence order; JavaScript lists integer-like object keys (such as "7") first in numeric order, and a value naming an `Object.prototype` member (such as "constructor") would make the source fail; neither is modelled.
- URLSync.Adopt: a `groupBy` URL value that is not one of the five attribute names is ignored, where the source stores it unchecked.
- URLSync.URLSyncHook.RunInbound: same restriction as `URLSync.Adopt` for unknown `groupBy` values.
- URLSync.History: only the replacing navigation the hook performs is modelled; pushed entries and the browser's own navigation are not.
