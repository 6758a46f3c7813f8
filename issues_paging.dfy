/** Pagination in src/components/IssuesTable.tsx: the page slice of the flat
    view (`paginatedData`), the per-group slice of the grouped view, the page
    count label and the rules that enable the navigation buttons. */
module IssuesPaging {

  /** `Math.ceil(n / size)` for a non-negative count and a positive size. */
  function CeilDiv(n: nat, size: nat): (r: nat)
    requires size > 0
    ensures n <= r * size
    ensures r == 0 || (r - 1) * size < n
  {
    (n + size - 1) / size
  }

  /** `s.slice(from, to)` for non-negative bounds: both bounds are clamped to the
      length and a slice whose end is not after its start is empty. */
  function Slice<T>(s: seq<T>, from: nat, to: nat): (r: seq<T>)
    ensures |r| == if from < to && from < |s| then (if to < |s| then to else |s|) - from else 0
    ensures forall i :: 0 <= i < |r| ==> r[i] == s[from + i]
  {
    var end := if to < |s| then to else |s|;
    if from < end then s[from..end] else []
  }

  /** The rows shown on page `page` (counted from 0), both in the flat view
      (`sortedData.slice(page * pageSize, page * pageSize + pageSize)`) and inside
      an expanded group (`groupIssues.slice(page * pageSize, (page + 1) * pageSize)`). */
  function Page<T>(s: seq<T>, page: nat, size: nat): (r: seq<T>)
    ensures |r| <= size
    ensures forall i :: 0 <= i < |r| ==> page * size + i < |s| && r[i] == s[page * size + i]
  {
    Slice(s, page * size, page * size + size)
  }

  /** A page holds at most `size` rows, is empty exactly when it starts at or past
      the end, and holds the rows from its start on, in order. */
  lemma PageSpec<T>(s: seq<T>, page: nat, size: nat)
    requires size > 0
    ensures |Page(s, page, size)| <= size
    ensures Page(s, page, size) == [] <==> page * size >= |s|
    ensures forall i :: 0 <= i < |Page(s, page, size)| ==> Page(s, page, size)[i] == s[page * size + i]
  {
  }

  /** The first `k` pages, one after the other. */
  function Pages<T>(s: seq<T>, k: nat, size: nat): seq<T> {
    if k == 0 then [] else Pages(s, k - 1, size) + Page(s, k - 1, size)
  }

  /** The first `k` pages are the first `k * size` rows. */
  lemma {:induction false} PagesArePrefix<T>(s: seq<T>, k: nat, size: nat)
    requires size > 0
    ensures Pages(s, k, size) == s[..if k * size < |s| then k * size else |s|]
  {
    if k > 0 {
      PagesArePrefix(s, k - 1, size);
      var start, end := (k - 1) * size, k * size;
      assert end == start + size;
      SliceExtends(s, start, end);
    }
  }

  /** The rows before `from` followed by the slice from `from` to `to` are the rows before `to`. */
  lemma SliceExtends<T>(s: seq<T>, from: nat, to: nat)
    requires from <= to
    ensures s[..if from < |s| then from else |s|] + Slice(s, from, to) == s[..if to < |s| then to else |s|]
  {
    var lo := if from < |s| then from else |s|;
    var hi := if to < |s| then to else |s|;
    assert Slice(s, from, to) == s[lo..hi];
    assert s[..lo] + s[lo..hi] == s[..hi];
  }

  /** The pages the page count announces, concatenated, are all the rows. */
  lemma PagesRebuild<T>(s: seq<T>, size: nat)
    requires size > 0
    ensures Pages(s, CeilDiv(|s|, size), size) == s
  {
    PagesArePrefix(s, CeilDiv(|s|, size), size);
  }

  /** The "Page p of N" label's N: the page count, but at least 1. */
  function PageCount(n: nat, size: nat): (r: nat)
    requires size > 0
    ensures r >= 1
    ensures r == CeilDiv(n, size) || (n == 0 && r == 1)
  {
    if CeilDiv(n, size) > 1 then CeilDiv(n, size) else 1
  }

  /** "first" and "previous" are disabled on the first page. */
  predicate BackDisabled(page: nat) {
    page == 0
  }

  /** "next" and "last" are disabled from the last page on: `page >= ceil(n / size) - 1`. */
  predicate ForwardDisabled(page: nat, n: nat, size: nat)
    requires size > 0
  {
    page >= CeilDiv(n, size) - 1
  }

  /** The page "last" moves to: `ceil(n / size) - 1`. */
  function LastPage(n: nat, size: nat): int
    requires size > 0
  {
    CeilDiv(n, size) - 1
  }

  /** Whenever "next" is enabled the next page has rows, and whenever "last" is
      enabled it moves to a page that has rows and is followed by none. */
  lemma ForwardTargetsHaveRows<T>(s: seq<T>, page: nat, size: nat)
    requires size > 0 && !ForwardDisabled(page, |s|, size)
    ensures Page(s, page + 1, size) != []
    ensures LastPage(|s|, size) > page
    ensures Page(s, LastPage(|s|, size), size) != []
    ensures Page(s, LastPage(|s|, size) + 1, size) == []
  {
    var k := CeilDiv(|s|, size);
    assert (page + 1) * size <= (k - 1) * size by {
      MulMonotone(page + 1, k - 1, size);
    }
  }

  /** With no rows "next" and "last" are disabled on every page, so "last" never
      moves to page `ceil(0 / size) - 1 == -1`. */
  lemma EmptyListDisablesNavigation(page: nat, size: nat)
    requires size > 0
    ensures ForwardDisabled(page, 0, size)
    ensures LastPage(0, size) == -1
  {
  }

  /** "next" is enabled iff some row lies past the current page. */
  lemma ForwardEnabledIffMoreRows(page: nat, n: nat, size: nat)
    requires size > 0
    ensures !ForwardDisabled(page, n, size) <==> (page + 1) * size < n
  {
    var k := CeilDiv(n, size);
    if (page + 1) * size < n {
      if k <= page + 1 {
        MulMonotone(k, page + 1, size);
      }
    }
    if !ForwardDisabled(page, n, size) {
      MulMonotone(page + 1, k - 1, size);
    }
  }

  lemma MulMonotone(a: nat, b: nat, size: nat)
    requires a <= b
    ensures a * size <= b * size
  {
  }
}
