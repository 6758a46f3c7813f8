/** Sequence helpers shared by the dashboard model: JavaScript's
    `Array.prototype.filter` (Keep), the insertion-ordered distinct values of
    `[...new Set(xs)]` (Dedup), and the notions used to state their results. */
module Collections {

  /** A value that may be absent (`T | null` in the source). */
  datatype Option<T> = None | Some(value: T)

  /** The elements of `s` that satisfy `p`, in their original order. */
  function Keep<T>(s: seq<T>, p: T -> bool): (r: seq<T>)
    ensures |r| <= |s|
    ensures forall x :: x in r ==> x in s && p(x)
  {
    if s == [] then [] else (if p(s[0]) then [s[0]] else []) + Keep(s[1..], p)
  }

  /** `r` is obtained from `s` by deleting elements, keeping the order of the rest. */
  predicate IsSubsequence<T(==)>(r: seq<T>, s: seq<T>)
    decreases |s|
  {
    if r == [] then true
    else if s == [] then false
    else if r[0] == s[0] then IsSubsequence(r[1..], s[1..])
    else IsSubsequence(r, s[1..])
  }

  /** No value occurs twice in `s`. */
  predicate Distinct<T(==)>(s: seq<T>) {
    forall i, j :: 0 <= i < j < |s| ==> s[i] != s[j]
  }

  /** The values of `s`, each once, in the order of their first occurrence
      (what iterating a JavaScript `Set` built from `s` yields). */
  function Dedup<T(==)>(s: seq<T>): (r: seq<T>)
    ensures forall i :: 0 <= i < |r| ==> r[i] in s
    ensures forall i :: 0 <= i < |s| ==> s[i] in r
    ensures Distinct(r)
  {
    if s == [] then []
    else
      var d := Dedup(s[..|s| - 1]);
      if s[|s| - 1] in d then d else d + [s[|s| - 1]]
  }

  /** `s` in reverse order. */
  function Reversed<T>(s: seq<T>): (r: seq<T>)
    ensures |r| == |s|
    ensures forall i :: 0 <= i < |s| ==> r[i] == s[|s| - 1 - i]
  {
    if s == [] then [] else [s[|s| - 1]] + Reversed(s[..|s| - 1])
  }

  /** Two permutations of each other, one ending with the value the other starts
      with, remain permutations once that value is removed from both. */
  lemma MultisetDropEnds<T>(s: seq<T>, t: seq<T>)
    requires s != [] && |t| == |s| && multiset(s) == multiset(t) && t[0] == s[|s| - 1]
    ensures multiset(s[..|s| - 1]) == multiset(t[1..])
  {
    assert s == s[..|s| - 1] + [s[|s| - 1]];
    assert t == [t[0]] + t[1..];
    calc {
      multiset(s[..|s| - 1]);
      multiset(s) - multiset{s[|s| - 1]};
      multiset(t) - multiset{t[0]};
      multiset(t[1..]);
    }
  }

  /** Index of the first occurrence of `x` in `s`. */
  function FirstIndex<T(==)>(s: seq<T>, x: T): (k: nat)
    requires x in s
    ensures k < |s| && s[k] == x
    ensures forall j :: 0 <= j < k ==> s[j] != x
  {
    if s[0] == x then 0 else 1 + FirstIndex(s[1..], x)
  }

  lemma {:induction false} KeepAppend<T>(s: seq<T>, t: seq<T>, p: T -> bool)
    ensures Keep(s + t, p) == Keep(s, p) + Keep(t, p)
  {
    if s == [] {
      assert s + t == t;
    } else {
      assert (s + t)[0] == s[0];
      assert (s + t)[1..] == s[1..] + t;
      KeepAppend(s[1..], t, p);
    }
  }

  /** Keep keeps exactly the occurrences that satisfy `p`. */
  lemma {:induction false} KeepCount<T>(s: seq<T>, p: T -> bool, x: T)
    ensures multiset(Keep(s, p))[x] == if p(x) then multiset(s)[x] else 0
  {
    if s != [] {
      KeepCount(s[1..], p, x);
      assert s == [s[0]] + s[1..];
      assert multiset(s) == multiset([s[0]]) + multiset(s[1..]);
    }
  }

  lemma KeepMember<T>(s: seq<T>, p: T -> bool, x: T)
    ensures x in Keep(s, p) <==> x in s && p(x)
  {
    KeepCount(s, p, x);
    assert x in Keep(s, p) <==> multiset(Keep(s, p))[x] > 0;
  }

  /** The first element kept is the first element of `s` that satisfies `p`. */
  lemma {:induction false} KeepHead<T>(s: seq<T>, p: T -> bool)
    requires Keep(s, p) != []
    ensures exists k :: 0 <= k < |s| && s[k] == Keep(s, p)[0] && forall j :: 0 <= j < k ==> !p(s[j])
  {
    if p(s[0]) {
      assert s[0] == Keep(s, p)[0];
    } else {
      KeepHead(s[1..], p);
      var k :| 0 <= k < |s[1..]| && s[1..][k] == Keep(s[1..], p)[0] && forall j :: 0 <= j < k ==> !p(s[1..][j]);
      assert s[k + 1] == Keep(s, p)[0];
      assert forall j :: 0 <= j < k + 1 ==> !p(s[j]) by {
        forall j | 0 < j < k + 1 ensures !p(s[j]) {
          assert s[j] == s[1..][j - 1];
        }
      }
    }
  }

  /** `KeepMember` for every element at once. */
  lemma KeepMembers<T>(s: seq<T>, p: T -> bool)
    ensures forall x :: x in Keep(s, p) <==> x in s && p(x)
  {
    forall x ensures x in Keep(s, p) <==> x in s && p(x) {
      KeepMember(s, p, x);
    }
  }

  lemma {:induction false} KeepIsSubsequence<T>(s: seq<T>, p: T -> bool)
    ensures IsSubsequence(Keep(s, p), s)
  {
    if s != [] {
      KeepIsSubsequence(s[1..], p);
      if p(s[0]) {
        assert Keep(s, p) == [s[0]] + Keep(s[1..], p);
        assert Keep(s, p)[1..] == Keep(s[1..], p);
      } else {
        assert Keep(s, p) == Keep(s[1..], p);
        SubsequenceDropHead(Keep(s[1..], p), s);
      }
    }
  }

  /** If `r` is a subsequence of the tail of `s`, it is one of `s`. */
  lemma {:induction false} SubsequenceDropHead<T>(r: seq<T>, s: seq<T>)
    requires s != [] && IsSubsequence(r, s[1..])
    ensures IsSubsequence(r, s)
    decreases |s|, 0
  {
    if r != [] && r[0] == s[0] {
      SubsequenceTail(r, s[1..]);
    }
  }

  /** Dropping the head of a non-empty subsequence keeps it a subsequence. */
  lemma {:induction false} SubsequenceTail<T>(r: seq<T>, s: seq<T>)
    requires r != [] && IsSubsequence(r, s)
    ensures IsSubsequence(r[1..], s)
    decreases |s|, 1
  {
    assert s != [];
    if r[0] == s[0] {
      if r[1..] != [] {
        SubsequenceDropHead(r[1..], s);
      }
    } else {
      SubsequenceTail(r, s[1..]);
      if r[1..] != [] {
        SubsequenceDropHead(r[1..], s);
      }
    }
  }

  /** A filter that keeps everything is the identity. */
  lemma {:induction false} KeepAll<T>(s: seq<T>, p: T -> bool)
    requires forall i :: 0 <= i < |s| ==> p(s[i])
    ensures Keep(s, p) == s
  {
    if s != [] {
      KeepAll(s[1..], p);
    }
  }

  /** A filter that keeps nothing of `s` is empty. */
  lemma {:induction false} KeepNone<T>(s: seq<T>, p: T -> bool)
    requires forall i :: 0 <= i < |s| ==> !p(s[i])
    ensures Keep(s, p) == []
  {
    if s != [] {
      KeepNone(s[1..], p);
    }
  }

  /** Filtering by a stronger predicate after a weaker one is filtering by the stronger one. */
  lemma {:induction false} KeepOfKeep<T>(s: seq<T>, p: T -> bool, q: T -> bool)
    requires forall x :: q(x) ==> p(x)
    ensures Keep(Keep(s, p), q) == Keep(s, q)
  {
    if s != [] {
      KeepOfKeep(s[1..], p, q);
      if p(s[0]) {
        assert Keep(s, p) == [s[0]] + Keep(s[1..], p);
        KeepAppend([s[0]], Keep(s[1..], p), q);
        assert Keep([s[0]], q) == (if q(s[0]) then [s[0]] else []) + Keep([], q);
      } else {
        assert Keep(s, p) == Keep(s[1..], p);
        assert Keep(s, q) == Keep(s[1..], q);
      }
    }
  }

  /** Two filters with disjoint predicates keep at most |s| elements together. */
  lemma {:induction false} KeepDisjoint<T>(s: seq<T>, p: T -> bool, q: T -> bool)
    requires forall i :: 0 <= i < |s| ==> !(p(s[i]) && q(s[i]))
    ensures |Keep(s, p)| + |Keep(s, q)| <= |s|
  {
    if s != [] {
      KeepDisjoint(s[1..], p, q);
    }
  }

  /** A pairwise relation that holds along `s` still holds along any filter of it. */
  lemma {:induction false} KeepPreservesOrder<T>(s: seq<T>, p: T -> bool, rel: (T, T) -> bool)
    requires forall i, j :: 0 <= i < j < |s| ==> rel(s[i], s[j])
    ensures forall i, j :: 0 <= i < j < |Keep(s, p)| ==> rel(Keep(s, p)[i], Keep(s, p)[j])
  {
    if s != [] {
      var tail := Keep(s[1..], p);
      KeepPreservesOrder(s[1..], p, rel);
      if p(s[0]) {
        var r := Keep(s, p);
        assert r == [s[0]] + tail;
        forall i, j | 0 <= i < j < |r| ensures rel(r[i], r[j]) {
          if i == 0 {
            assert r[j] == tail[j - 1] && r[j] in s[1..];
            var k :| 0 <= k < |s[1..]| && s[1..][k] == r[j];
            assert s[k + 1] == r[j];
          } else {
            assert r[i] == tail[i - 1] && r[j] == tail[j - 1];
          }
        }
      }
    }
  }

  lemma {:induction false} FirstIndexAppend<T>(s: seq<T>, y: T, x: T)
    requires x in s
    ensures FirstIndex(s + [y], x) == FirstIndex(s, x)
  {
    if s[0] != x {
      assert (s + [y])[1..] == s[1..] + [y];
      FirstIndexAppend(s[1..], y, x);
    }
  }

  lemma FirstIndexNew<T>(s: seq<T>, y: T)
    requires y !in s
    ensures FirstIndex(s + [y], y) == |s|
  {
    assert forall j :: 0 <= j < |s| ==> (s + [y])[j] == s[j];
  }

  /** Dedup lists the values in the order in which they first occur in `s`. */
  lemma {:induction false} DedupFirstOccurrenceOrder<T>(s: seq<T>)
    ensures forall i, j :: 0 <= i < j < |Dedup(s)| ==>
      FirstIndex(s, Dedup(s)[i]) < FirstIndex(s, Dedup(s)[j])
  {
    if s != [] {
      var t, y := s[..|s| - 1], s[|s| - 1];
      assert s == t + [y];
      DedupFirstOccurrenceOrder(t);
      var d := Dedup(t);
      forall i, j | 0 <= i < j < |Dedup(s)|
        ensures FirstIndex(s, Dedup(s)[i]) < FirstIndex(s, Dedup(s)[j])
      {
        assert d[i] in t;
        FirstIndexAppend(t, y, d[i]);
        if j < |d| {
          assert d[j] in t;
          FirstIndexAppend(t, y, d[j]);
        } else {
          assert y !in d && Dedup(s)[j] == y;
          FirstIndexNew(t, y);
        }
      }
    }
  }

  /** Appending a value to the input appends it to Dedup iff it is new. */
  lemma DedupSnoc<T>(s: seq<T>, v: T)
    ensures v in Dedup(s) <==> v in s
    ensures Dedup(s + [v]) == if v in s then Dedup(s) else Dedup(s) + [v]
  {
    assert (s + [v])[..|s|] == s;
    if v in Dedup(s) {
      var k :| 0 <= k < |Dedup(s)| && Dedup(s)[k] == v;
    }
    if v in s {
      var k :| 0 <= k < |s| && s[k] == v;
    }
  }
}
