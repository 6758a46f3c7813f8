/** The group stage of src/components/IssuesTable.tsx (`groupedData`): the
    sorted rows are bucketed by the group-by attribute into an object whose
    keys appear in order of first occurrence, each bucket keeping the rows in
    their sorted order. The object is modelled as its key order plus a map. */
module IssuesGroup {
  import opened Collections
  import opened IssueTypes
  import opened IssuesFilter

  function HasValue(c: Category, k: string): Issue -> bool {
    (x: Issue) => Value(x, c) == k
  }

  /** The rows whose value for `c` is `k`, in order. */
  function Members(s: seq<Issue>, c: Category, k: string): seq<Issue> {
    Keep(s, HasValue(c, k))
  }

  /** The buckets listed in key order, one after the other
      (`Object.values(groupedData).flat()` over the keys `ks`). */
  function Flatten(s: seq<Issue>, c: Category, ks: seq<string>): seq<Issue> {
    if ks == [] then [] else Members(s, c, ks[0]) + Flatten(s, c, ks[1..])
  }

  /** Adding one row to the end of the input adds its key at the end of the
      key order when the key is new, and leaves the key order alone otherwise. */
  lemma KeysStep(s: seq<Issue>, i: nat, c: Category)
    requires i < |s|
    ensures Value(s[i], c) in Options(s[..i], c) <==> Value(s[i], c) in Values(s[..i], c)
    ensures Options(s[..i + 1], c) ==
      if Value(s[i], c) in Values(s[..i], c) then Options(s[..i], c) else Options(s[..i], c) + [Value(s[i], c)]
  {
    assert Values(s[..i + 1], c) == Values(s[..i], c) + [Value(s[i], c)];
    DedupSnoc(Values(s[..i], c), Value(s[i], c));
  }

  /** Adding one row to the end of the input adds it to the end of its own bucket. */
  lemma MembersStep(s: seq<Issue>, i: nat, c: Category, k: string)
    requires i < |s|
    ensures Members(s[..i + 1], c, k) ==
      (if Value(s[i], c) == k then Members(s[..i], c, k) + [s[i]] else Members(s[..i], c, k))
  {
    assert s[..i + 1] == s[..i] + [s[i]];
    KeepAppend(s[..i], [s[i]], HasValue(c, k));
  }

  /** A key that no row has so far has an empty bucket. */
  lemma MembersOfAbsentKey(s: seq<Issue>, c: Category, k: string)
    requires k !in Values(s, c)
    ensures Members(s, c, k) == []
  {
    forall i | 0 <= i < |s| ensures !HasValue(c, k)(s[i]) {
      assert Values(s, c)[i] == Value(s[i], c);
    }
    KeepNone(s, HasValue(c, k));
  }

  /** `keys` and `groups` are the grouping of the rows `s[..i]`. */
  ghost predicate GroupedUpTo(s: seq<Issue>, i: nat, c: Category, keys: seq<string>, groups: map<string, seq<Issue>>)
    requires i <= |s|
  {
    && keys == Options(s[..i], c)
    && (forall k :: k in groups <==> k in keys)
    && (forall k :: k in groups ==> groups[k] == Members(s[..i], c, k))
  }

  /** One step of the forEach keeps the key order up to date. */
  lemma KeysUpdate(s: seq<Issue>, i: nat, c: Category, keys: seq<string>, groups: map<string, seq<Issue>>)
    requires i < |s| && GroupedUpTo(s, i, c, keys, groups)
    ensures var key := Value(s[i], c);
      var keys' := if key in groups then keys else keys + [key];
      keys' == Options(s[..i + 1], c) && forall k :: k in groups[key := []] <==> k in keys'
  {
    KeysStep(s, i, c);
  }

  /** One step of the forEach keeps the buckets up to date. */
  lemma BucketsUpdate(s: seq<Issue>, i: nat, c: Category, keys: seq<string>, groups: map<string, seq<Issue>>)
    requires i < |s| && GroupedUpTo(s, i, c, keys, groups)
    ensures var key := Value(s[i], c);
      var groups' := groups[key := (if key in groups then groups[key] else []) + [s[i]]];
      forall k :: k in groups' ==> groups'[k] == Members(s[..i + 1], c, k)
  {
    var key := Value(s[i], c);
    var groups' := groups[key := (if key in groups then groups[key] else []) + [s[i]]];
    forall k | k in groups' ensures groups'[k] == Members(s[..i + 1], c, k) {
      MembersStep(s, i, c, k);
      if k == key && key !in groups {
        KeysStep(s, i, c);
        MembersOfAbsentKey(s[..i], c, key);
      }
    }
  }

  /** `groupedData` for a group-by attribute: a forEach over the sorted rows that
      creates a bucket the first time a key is met and pushes the row into it.
      The keys come out as the attribute's distinct values in first-occurrence
      order and each bucket holds exactly that value's rows, in order. */
  method GroupBy(sorted: seq<Issue>, c: Category) returns (keys: seq<string>, groups: map<string, seq<Issue>>)
    ensures keys == Options(sorted, c)
    ensures forall k :: k in groups <==> k in keys
    ensures forall k :: k in groups ==> groups[k] == Members(sorted, c, k)
  {
    keys, groups := [], map[];
    for i := 0 to |sorted|
      invariant GroupedUpTo(sorted, i, c, keys, groups)
    {
      var issue := sorted[i];
      var key := Value(issue, c);
      KeysUpdate(sorted, i, c, keys, groups);
      BucketsUpdate(sorted, i, c, keys, groups);
      var bucket := [];
      if key in groups {
        bucket := groups[key];
      } else {
        keys := keys + [key];
      }
      groups := groups[key := bucket + [issue]];
    }
    assert sorted[..|sorted|] == sorted;
  }

  /** Every row's key is listed. */
  lemma KeyListed(s: seq<Issue>, c: Category, i: nat)
    requires i < |s|
    ensures Value(s[i], c) in Options(s, c)
  {
    assert Values(s, c)[i] == Value(s[i], c);
  }

  /** Every row lands in the bucket of its own key, with all its occurrences,
      and in no other bucket. */
  lemma BucketCount(s: seq<Issue>, c: Category, x: Issue, k: string)
    ensures multiset(Members(s, c, k))[x] == if Value(x, c) == k then multiset(s)[x] else 0
  {
    KeepCount(s, HasValue(c, k), x);
  }

  /** A key is listed iff its bucket is non-empty. */
  lemma ListedIffNonEmpty(s: seq<Issue>, c: Category, k: string)
    ensures k in Options(s, c) <==> Members(s, c, k) != []
  {
    if k in Options(s, c) {
      var j :| 0 <= j < |Options(s, c)| && Options(s, c)[j] == k;
      assert k in Values(s, c);
      var i :| 0 <= i < |s| && Values(s, c)[i] == k;
      KeepMember(s, HasValue(c, k), s[i]);
    }
    if Members(s, c, k) != [] {
      var y := Members(s, c, k)[0];
      KeepMember(s, HasValue(c, k), y);
      var i :| 0 <= i < |s| && s[i] == y;
      KeyListed(s, c, i);
    }
  }

  /** Each bucket keeps its rows in their sorted order: it is a subsequence of
      the input, and any pairwise relation the input satisfies holds inside it. */
  lemma GroupKeepsOrder(s: seq<Issue>, c: Category, k: string, rel: (Issue, Issue) -> bool)
    requires forall i, j :: 0 <= i < j < |s| ==> rel(s[i], s[j])
    ensures IsSubsequence(Members(s, c, k), s)
    ensures forall i, j :: 0 <= i < j < |Members(s, c, k)| ==> rel(Members(s, c, k)[i], Members(s, c, k)[j])
  {
    KeepIsSubsequence(s, HasValue(c, k));
    KeepPreservesOrder(s, HasValue(c, k), rel);
  }

  /** Listing the buckets of distinct keys counts each row once if its key is listed. */
  lemma {:induction false} FlattenCount(s: seq<Issue>, c: Category, ks: seq<string>, x: Issue)
    requires Distinct(ks)
    ensures multiset(Flatten(s, c, ks))[x] == if Value(x, c) in ks then multiset(s)[x] else 0
  {
    if ks != [] {
      DistinctTail(ks);
      FlattenCount(s, c, ks[1..], x);
      KeepCount(s, HasValue(c, ks[0]), x);
      assert Value(x, c) in ks <==> Value(x, c) == ks[0] || Value(x, c) in ks[1..] by {
        assert ks == [ks[0]] + ks[1..];
      }
    }
  }

  /** The tail of a list of distinct keys is distinct and does not hold its head. */
  lemma DistinctTail(ks: seq<string>)
    requires ks != [] && Distinct(ks)
    ensures Distinct(ks[1..]) && ks[0] !in ks[1..]
  {
    forall i, j | 0 <= i < j < |ks[1..]| ensures ks[1..][i] != ks[1..][j] {
      assert ks[1..][i] == ks[i + 1] && ks[1..][j] == ks[j + 1];
    }
    forall j | 0 <= j < |ks[1..]| ensures ks[1..][j] != ks[0] {
      assert ks[1..][j] == ks[j + 1];
    }
  }

  /** Listing one more key appends that key's bucket. */
  lemma {:induction false} FlattenSnoc(s: seq<Issue>, c: Category, ks: seq<string>, k: string)
    ensures Flatten(s, c, ks + [k]) == Flatten(s, c, ks) + Members(s, c, k)
  {
    if ks == [] {
      assert Flatten(s, c, [k]) == Members(s, c, k) + Flatten(s, c, []);
    } else {
      assert (ks + [k])[1..] == ks[1..] + [k];
      FlattenSnoc(s, c, ks[1..], k);
    }
  }

  /** The buckets of the first `i + 1` keys are those of the first `i` keys and then key `i`'s. */
  lemma FlattenPrefix(s: seq<Issue>, c: Category, ks: seq<string>, i: nat)
    requires i < |ks|
    ensures Flatten(s, c, ks[..i + 1]) == Flatten(s, c, ks[..i]) + Members(s, c, ks[i])
  {
    assert ks[..i + 1] == ks[..i] + [ks[i]];
    FlattenSnoc(s, c, ks[..i], ks[i]);
  }

  /** The buckets together are a rearrangement of the input: every row appears
      as often as in the input, so the grouped view is empty iff the input is. */
  lemma GroupsArePermutation(s: seq<Issue>, c: Category)
    ensures multiset(Flatten(s, c, Options(s, c))) == multiset(s)
    ensures Flatten(s, c, Options(s, c)) == [] <==> s == []
  {
    forall x ensures multiset(Flatten(s, c, Options(s, c)))[x] == multiset(s)[x] {
      FlattenCount(s, c, Options(s, c), x);
      if x in s {
        var i :| 0 <= i < |s| && s[i] == x;
        KeyListed(s, c, i);
      }
    }
    assert multiset(Flatten(s, c, Options(s, c))) == multiset(s);
    if Flatten(s, c, Options(s, c)) == [] {
      assert |multiset(s)| == 0;
    }
  }

  /** `toggleGroupExpansion`'s update: a key that is expanded is collapsed and vice versa. */
  function Toggle(expanded: set<string>, key: string): (r: set<string>)
    ensures key in r <==> key !in expanded
    ensures forall k :: k != key ==> (k in r <==> k in expanded)
  {
    if key in expanded then expanded - {key} else expanded + {key}
  }

  /** Toggling twice restores the set. */
  lemma ToggleTwiceRestores(expanded: set<string>, key: string)
    ensures Toggle(Toggle(expanded, key), key) == expanded
  {
  }
}
