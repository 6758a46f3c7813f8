/** The filter stage of src/components/IssuesTable.tsx (`filteredData`) and
    the option lists offered by the filter popovers (`filterOptions`). */
module IssuesFilter {
  import opened Collections
  import opened Text
  import opened IssueTypes

  /** The search box test: an empty search matches everything; otherwise the
      lower-cased search must occur in the lower-cased title or identifier. */
  predicate SearchMatches(issue: Issue, search: string) {
    search == ""
    || Contains(Lower(issue.title), Lower(search))
    || Contains(Lower(issue.identifier), Lower(search))
  }

  /** One category's test: an empty list accepts every value. */
  predicate CategoryMatches(issue: Issue, f: Filters, c: Category) {
    |Selected(f, c)| == 0 || Value(issue, c) in Selected(f, c)
  }

  /** The row predicate of `filteredData`: the search test and all five category tests. */
  predicate Matches(issue: Issue, search: string, f: Filters) {
    && SearchMatches(issue, search)
    && CategoryMatches(issue, f, Status)
    && CategoryMatches(issue, f, Project)
    && CategoryMatches(issue, f, Priority)
    && CategoryMatches(issue, f, Assignee)
    && CategoryMatches(issue, f, Cycle)
  }

  function Matching(search: string, f: Filters): Issue -> bool {
    (issue: Issue) => Matches(issue, search, f)
  }

  /** `filteredData`: the issues that match, in their original order. */
  function Filter(issues: seq<Issue>, search: string, f: Filters): (r: seq<Issue>)
    ensures forall x :: x in r <==> x in issues && Matches(x, search, f)
  {
    KeepMembers(issues, Matching(search, f));
    Keep(issues, Matching(search, f))
  }

  /** The row predicate is the search test together with every category test. */
  lemma MatchesAllCategories(x: Issue, search: string, f: Filters)
    ensures Matches(x, search, f) <==> SearchMatches(x, search) && forall c :: CategoryMatches(x, f, c)
  {
    if Matches(x, search, f) {
      forall c ensures CategoryMatches(x, f, c) {
        match c
        case Status =>
        case Project =>
        case Priority =>
        case Assignee =>
        case Cycle =>
      }
    }
  }

  /** The filter result lists the input's matching issues in their original order. */
  lemma FilterIsSubsequence(issues: seq<Issue>, search: string, f: Filters)
    ensures IsSubsequence(Filter(issues, search, f), issues)
  {
    KeepIsSubsequence(issues, Matching(search, f));
  }

  /** An issue is kept, with all its occurrences, iff it matches the search and
      every category; an issue that does not match is dropped entirely. */
  lemma FilterKeepsExactlyMatches(issues: seq<Issue>, search: string, f: Filters, x: Issue)
    ensures multiset(Filter(issues, search, f))[x] ==
      (if SearchMatches(x, search) && forall c :: CategoryMatches(x, f, c) then multiset(issues)[x] else 0)
    ensures x in Filter(issues, search, f) <==>
      x in issues && SearchMatches(x, search) && forall c :: CategoryMatches(x, f, c)
  {
    KeepCount(issues, Matching(search, f), x);
    KeepMember(issues, Matching(search, f), x);
    MatchesAllCategories(x, search, f);
  }

  /** With an empty search and every category list empty, nothing is filtered out. */
  lemma FilterInactive(issues: seq<Issue>)
    ensures Filter(issues, "", EmptyFilters) == issues
  {
    KeepAll(issues, Matching("", EmptyFilters));
  }

  /** The search ignores the case of ASCII letters in the search text. */
  lemma SearchIgnoresCase(issue: Issue, search: string)
    ensures SearchMatches(issue, search) == SearchMatches(issue, Lower(search))
  {
    LowerIdempotent(search);
    if search == "" {
      assert Lower(search) == "";
    } else {
      assert |Lower(search)| == |search|;
    }
  }

  /** The search is a substring test: "ENG-1" finds ENG-1 and ENG-10 but not ENG-2. */
  lemma SearchIsSubstring(i1: Issue, i10: Issue, i2: Issue)
    requires i1.identifier == "ENG-1" && i10.identifier == "ENG-10" && i2.identifier == "ENG-2"
    requires i2.title == ""
    ensures SearchMatches(i1, "ENG-1") && SearchMatches(i10, "ENG-1") && !SearchMatches(i2, "ENG-1")
  {
    assert Lower("ENG-1") == "eng-1";
    assert Lower("ENG-10") == "eng-10";
    assert Lower("ENG-2") == "eng-2";
    assert Lower("") == "";
    assert Contains("eng-10", "eng-1") by { assert "eng-10"[..5] == "eng-1"; }
    assert Contains("eng-1", "eng-1") by { assert "eng-1"[..5] == "eng-1"; }
    assert !Contains("eng-2", "eng-1") by {
      assert "eng-2"[..5] != "eng-1" by { assert "eng-2"[4] != "eng-1"[4]; }
      assert "eng-2"[1..] == "ng-2";
    }
  }

  /** The values of one category across the issues, in order, duplicates included. */
  function Values(issues: seq<Issue>, c: Category): (r: seq<string>)
    ensures |r| == |issues|
    ensures forall i :: 0 <= i < |issues| ==> r[i] == Value(issues[i], c)
    ensures forall v :: v in r <==> exists i :: 0 <= i < |issues| && Value(issues[i], c) == v
  {
    seq(|issues|, i requires 0 <= i < |issues| => Value(issues[i], c))
  }

  /** `filterOptions`: a category's distinct values, in order of first occurrence. */
  function Options(issues: seq<Issue>, c: Category): seq<string> {
    Dedup(Values(issues, c))
  }

  /** A value is offered iff some issue has it; each is offered once, and in the
      order in which the values first appear among the issues. */
  lemma OptionsSpec(issues: seq<Issue>, c: Category)
    ensures forall v :: v in Options(issues, c) <==> exists i :: 0 <= i < |issues| && Value(issues[i], c) == v
    ensures Distinct(Options(issues, c))
    ensures forall i, j :: 0 <= i < j < |Options(issues, c)| ==>
      FirstIndex(Values(issues, c), Options(issues, c)[i]) < FirstIndex(Values(issues, c), Options(issues, c)[j])
  {
    var vs := Values(issues, c);
    DedupFirstOccurrenceOrder(vs);
    forall v ensures v in Options(issues, c) <==> exists i :: 0 <= i < |issues| && Value(issues[i], c) == v {
      if v in Options(issues, c) {
        var k :| 0 <= k < |Options(issues, c)| && Options(issues, c)[k] == v;
        assert v in vs;
        var i :| 0 <= i < |vs| && vs[i] == v;
        assert Value(issues[i], c) == v;
      }
      if i :| 0 <= i < |issues| && Value(issues[i], c) == v {
        assert vs[i] == v;
      }
    }
  }
}
