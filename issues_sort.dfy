/** The sort stage of src/components/IssuesTable.tsx (`sortedData`): with no
    sort field the filtered rows pass through; otherwise a copy is sorted in
    place with a comparator built from `<` and `>` on the field's values,
    negated for "desc". */
module IssuesSort {
  import opened Collections
  import Text
  import opened IssueTypes

  /** A sortable attribute value: the three string columns and the numeric estimate. */
  datatype Key = StrKey(s: string) | IntKey(n: int)

  /** `issue[field]`. */
  function KeyOf(issue: Issue, f: SortField): Key {
    match f
    case ById => StrKey(issue.identifier)
    case ByPriority => StrKey(issue.priority)
    case ByDueDate => StrKey(issue.dueDate)
    case ByEstimate => IntKey(issue.estimate)
  }

  /** JavaScript `<` on two values of one column: lexicographic on strings, numeric on numbers. */
  predicate KeyLess(x: Key, y: Key) {
    match (x, y)
    case (StrKey(s), StrKey(t)) => Text.Less(s, t)
    case (IntKey(m), IntKey(n)) => m < n
    case _ => false
  }

  /** The comparator passed to `sort`: 1 when `a[field] > b[field]`, -1 when
      `a[field] < b[field]`, 0 otherwise, with the sign flipped for "desc". */
  function Compare(a: Issue, b: Issue, f: SortField, d: SortDirection): int {
    var x, y := KeyOf(a, f), KeyOf(b, f);
    var comparison := if KeyLess(y, x) then 1 else if KeyLess(x, y) then -1 else 0;
    if d == Desc then -comparison else comparison
  }

  /** The comparator's sign: 0 exactly for equal values, negative exactly when `a`
      comes first in the direction `d`, and never beyond -1 or 1. */
  lemma CompareSign(a: Issue, b: Issue, f: SortField, d: SortDirection)
    ensures -1 <= Compare(a, b, f, d) <= 1
    ensures Compare(a, b, f, d) == 0 <==> KeyOf(a, f) == KeyOf(b, f)
    ensures Compare(a, b, f, d) < 0 <==>
      if d == Asc then KeyLess(KeyOf(a, f), KeyOf(b, f)) else KeyLess(KeyOf(b, f), KeyOf(a, f))
  {
    KeyLessIsStrictTotal(a, b, a, f);
    KeyLessIsStrictTotal(b, a, b, f);
  }

  /** Every earlier row compares at most equal to every later one. */
  ghost predicate OrderedBy(s: seq<Issue>, f: SortField, d: SortDirection) {
    forall i, j :: 0 <= i < j < |s| ==> Compare(s[i], s[j], f, d) <= 0
  }

  /** `<` on one column's values is a strict total order. */
  lemma KeyLessIsStrictTotal(a: Issue, b: Issue, c: Issue, f: SortField)
    ensures !KeyLess(KeyOf(a, f), KeyOf(a, f))
    ensures KeyLess(KeyOf(a, f), KeyOf(b, f)) && KeyLess(KeyOf(b, f), KeyOf(c, f)) ==> KeyLess(KeyOf(a, f), KeyOf(c, f))
    ensures KeyLess(KeyOf(a, f), KeyOf(b, f)) || KeyOf(a, f) == KeyOf(b, f) || KeyLess(KeyOf(b, f), KeyOf(a, f))
  {
    if f != ByEstimate {
      var x, y, z := KeyOf(a, f).s, KeyOf(b, f).s, KeyOf(c, f).s;
      Text.LessIrreflexive(x);
      if Text.Less(x, y) && Text.Less(y, z) {
        Text.LessTransitive(x, y, z);
      }
      Text.LessTrichotomy(x, y);
    }
  }

  /** The comparator's "at most equal" is transitive. */
  lemma CompareTransitive(a: Issue, b: Issue, c: Issue, f: SortField, d: SortDirection)
    requires Compare(a, b, f, d) <= 0 && Compare(b, c, f, d) <= 0
    ensures Compare(a, c, f, d) <= 0
  {
    KeyLessIsStrictTotal(a, b, c, f);
    KeyLessIsStrictTotal(b, c, a, f);
    KeyLessIsStrictTotal(c, a, b, f);
    KeyLessIsStrictTotal(a, c, b, f);
    KeyLessIsStrictTotal(b, a, c, f);
    KeyLessIsStrictTotal(c, b, a, f);
  }

  /** The comparator is antisymmetric in sign. */
  lemma CompareFlip(a: Issue, b: Issue, f: SortField, d: SortDirection)
    ensures Compare(b, a, f, d) == -Compare(a, b, f, d)
  {
    KeyLessIsStrictTotal(a, b, a, f);
    KeyLessIsStrictTotal(b, a, b, f);
  }

  /** "desc" is "asc" with the sign flipped. */
  lemma DescIsReversedAsc(a: Issue, b: Issue, f: SortField)
    ensures Compare(a, b, f, Desc) == Compare(b, a, f, Asc)
  {
    CompareFlip(a, b, f, Asc);
  }

  /** No two rows share a value in column `f`. */
  ghost predicate DistinctKeys(s: seq<Issue>, f: SortField) {
    forall i, j :: 0 <= i < j < |s| ==> KeyOf(s[i], f) != KeyOf(s[j], f)
  }

  /** Sorting the same rows "asc" and then "desc" on a column without repeated
      values gives exactly the reversed order. */
  lemma {:induction false} DescSortReversesAsc(s: seq<Issue>, t: seq<Issue>, f: SortField)
    requires OrderedBy(s, f, Asc) && OrderedBy(t, f, Desc)
    requires multiset(s) == multiset(t)
    requires DistinctKeys(s, f)
    ensures t == Reversed(s)
    decreases |s|
  {
    assert |s| == |t| by {
      assert |multiset(s)| == |multiset(t)|;
    }
    if s != [] {
      var last := |s| - 1;
      var init, rest := s[..last], t[1..];
      assert t[0] in multiset(s);
      var a :| 0 <= a < |s| && s[a] == t[0];
      assert s[last] in multiset(t);
      var b :| 0 <= b < |t| && t[b] == s[last];
      LastIsLargest(s, t, f, a, b);
      MultisetDropEnds(s, t);
      DescSortReversesAsc(init, rest, f);
    }
  }

  /** The first row of the "desc" order is the last row of the "asc" order. */
  lemma LastIsLargest(s: seq<Issue>, t: seq<Issue>, f: SortField, a: int, b: int)
    requires |s| == |t| && 0 <= a < |s| && 0 <= b < |t|
    requires OrderedBy(s, f, Asc) && OrderedBy(t, f, Desc) && DistinctKeys(s, f)
    requires s[a] == t[0] && t[b] == s[|s| - 1]
    ensures a == |s| - 1
  {
    var x, y := s[a], s[|s| - 1];
    if a < |s| - 1 {
      CompareSign(x, y, f, Asc);
      if b > 0 {
        CompareSign(x, y, f, Desc);
      }
      KeyLessIsStrictTotal(x, y, x, f);
    }
  }

  /** Ordered "asc" means non-decreasing in the column, "desc" non-increasing. */
  lemma OrderedMeansMonotone(s: seq<Issue>, f: SortField, d: SortDirection)
    requires OrderedBy(s, f, d)
    ensures d == Asc ==> forall i, j :: 0 <= i < j < |s| ==> !KeyLess(KeyOf(s[j], f), KeyOf(s[i], f))
    ensures d == Desc ==> forall i, j :: 0 <= i < j < |s| ==> !KeyLess(KeyOf(s[i], f), KeyOf(s[j], f))
  {
    forall i, j | 0 <= i < j < |s|
      ensures d == Asc ==> !KeyLess(KeyOf(s[j], f), KeyOf(s[i], f))
      ensures d == Desc ==> !KeyLess(KeyOf(s[i], f), KeyOf(s[j], f))
    {
      assert Compare(s[i], s[j], f, d) <= 0;
      KeyLessIsStrictTotal(s[i], s[j], s[i], f);
    }
  }

  method Swap(a: array<Issue>, i: int, j: int)
    requires 0 <= i < a.Length && 0 <= j < a.Length
    modifies a
    ensures a[..] == old(a[..])[i := old(a[j])][j := old(a[i])]
    ensures multiset(a[..]) == multiset(old(a[..]))
  {
    a[i], a[j] := a[j], a[i];
  }

  /** The in-place sort of the copied array (an insertion sort; like the
      engine's sort it only moves a row past rows that compare greater). */
  method SortInPlace(a: array<Issue>, f: SortField, d: SortDirection)
    modifies a
    ensures OrderedBy(a[..], f, d)
    ensures multiset(a[..]) == multiset(old(a[..]))
  {
    if a.Length == 0 {
      return;
    }
    var i := 1;
    while i < a.Length
      invariant 1 <= i <= a.Length
      invariant forall p, q :: 0 <= p < q < i ==> Compare(a[p], a[q], f, d) <= 0
      invariant multiset(a[..]) == multiset(old(a[..]))
    {
      Insert(a, i, f, d);
      i := i + 1;
    }
  }

  /** `s[..i + 1]` is ordered except possibly around position `j`. */
  ghost predicate OrderedExcept(s: seq<Issue>, i: int, j: int, f: SortField, d: SortDirection)
    requires 0 <= j <= i < |s|
  {
    forall p, q :: 0 <= p < q <= i && p != j && q != j ==> Compare(s[p], s[q], f, d) <= 0
  }

  /** The row at `j` compares below every row after it up to `i`. */
  ghost predicate BelowFollowers(s: seq<Issue>, i: int, j: int, f: SortField, d: SortDirection)
    requires 0 <= j <= i < |s|
  {
    forall q :: j < q <= i ==> Compare(s[j], s[q], f, d) < 0
  }

  /** Swapping the row at `j` with a greater row before it moves the gap one step left. */
  lemma InsertStep(s: seq<Issue>, i: int, j: int, f: SortField, d: SortDirection)
    requires 0 < j <= i < |s|
    requires OrderedExcept(s, i, j, f, d) && BelowFollowers(s, i, j, f, d)
    requires Compare(s[j - 1], s[j], f, d) > 0
    ensures OrderedExcept(s[j - 1 := s[j]][j := s[j - 1]], i, j - 1, f, d)
    ensures BelowFollowers(s[j - 1 := s[j]][j := s[j - 1]], i, j - 1, f, d)
  {
    var t := s[j - 1 := s[j]][j := s[j - 1]];
    forall p, q | 0 <= p < q <= i && p != j - 1 && q != j - 1
      ensures Compare(t[p], t[q], f, d) <= 0
    {
      var p', q' := if p == j then j - 1 else p, if q == j then j - 1 else q;
      assert t[p] == s[p'] && t[q] == s[q'];
    }
    CompareFlip(s[j - 1], s[j], f, d);
    assert forall q :: j < q <= i ==> t[q] == s[q];
  }

  /** Once the row at `j` is not below the one before it, `s[..i + 1]` is ordered. */
  lemma InsertDone(s: seq<Issue>, i: int, j: int, f: SortField, d: SortDirection)
    requires 0 <= j <= i < |s|
    requires OrderedExcept(s, i, j, f, d) && BelowFollowers(s, i, j, f, d)
    requires j == 0 || Compare(s[j - 1], s[j], f, d) <= 0
    ensures forall p, q :: 0 <= p < q <= i ==> Compare(s[p], s[q], f, d) <= 0
  {
    forall p | 0 <= p < j
      ensures Compare(s[p], s[j], f, d) <= 0
    {
      if p < j - 1 {
        CompareTransitive(s[p], s[j - 1], s[j], f, d);
      }
    }
  }

  /** One insertion step: `a[i]` moves left past the rows of the ordered prefix
      `a[..i]` that compare greater, leaving `a[..i + 1]` ordered. */
  method Insert(a: array<Issue>, i: int, f: SortField, d: SortDirection)
    requires 1 <= i < a.Length
    requires forall p, q :: 0 <= p < q < i ==> Compare(a[p], a[q], f, d) <= 0
    modifies a
    ensures forall p, q :: 0 <= p < q <= i ==> Compare(a[p], a[q], f, d) <= 0
    ensures multiset(a[..]) == multiset(old(a[..]))
    ensures multiset(a[..i + 1]) == multiset(old(a[..i + 1]))
    ensures a[i + 1..] == old(a[i + 1..])
  {
    var j := i;
    while j > 0 && Compare(a[j - 1], a[j], f, d) > 0
      invariant 0 <= j <= i
      invariant OrderedExcept(a[..], i, j, f, d) && BelowFollowers(a[..], i, j, f, d)
      invariant multiset(a[..]) == multiset(old(a[..]))
      invariant multiset(a[..i + 1]) == multiset(old(a[..i + 1]))
      invariant a[i + 1..] == old(a[i + 1..])
    {
      ghost var before := a[..];
      InsertStep(a[..], i, j, f, d);
      Swap(a, j - 1, j);
      assert a[..i + 1] == before[..i + 1][j - 1 := before[j]][j := before[j - 1]];
      j := j - 1;
    }
    InsertDone(a[..], i, j, f, d);
  }

  /** `sortedData`: the filtered rows unchanged when no column is sorted; otherwise a
      sorted copy, a permutation of the filtered rows ordered by the comparator. */
  method SortedView(filtered: seq<Issue>, field: Option<SortField>, d: SortDirection) returns (r: seq<Issue>)
    ensures field.None? ==> r == filtered
    ensures field.Some? ==> OrderedBy(r, field.value, d)
    ensures multiset(r) == multiset(filtered)
    ensures |r| == |filtered|
  {
    if field.None? {
      return filtered;
    }
    var a := new Issue[|filtered|](k requires 0 <= k < |filtered| => filtered[k]);
    assert a[..] == filtered;
    SortInPlace(a, field.value, d);
    r := a[..];
    assert |r| == |multiset(r)| == |multiset(filtered)| == |filtered|;
  }
}
