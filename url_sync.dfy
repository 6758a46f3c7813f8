/** The URL synchronizer of src/hooks/useURLSync.ts. The query string is a
    list of (name, value) pairs whose `get`, `set` and `delete` follow the
    URLSearchParams class of section 6.2 of the WHATWG URL Standard. Three
    slices are mirrored: openIssueId as `issueId`, search as `search`, and
    groupBy as `groupBy`. */
module URLSync {
  import opened Collections
  import opened IssueTypes
  import opened TableStore

  type Param = (string, string)

  const IssueIdParam := "issueId"
  const SearchParam := "search"
  const GroupByParam := "groupBy"

  function NameIs(n: string): Param -> bool {
    (p: Param) => p.0 == n
  }

  function NameIsNot(n: string): Param -> bool {
    (p: Param) => p.0 != n
  }

  function IsUntracked(): Param -> bool {
    (p: Param) => p.0 != IssueIdParam && p.0 != SearchParam && p.0 != GroupByParam
  }

  /** The pairs named `n`, in order. */
  function Named(l: seq<Param>, n: string): seq<Param> {
    Keep(l, NameIs(n))
  }

  /** The pairs whose names the synchronizer does not track, in order. */
  function Untracked(l: seq<Param>): seq<Param> {
    Keep(l, IsUntracked())
  }

  /** `get(n)`: the value of the first pair named `n`, or null when there is none. */
  function Get(l: seq<Param>, n: string): (r: Option<string>)
    ensures r.None? <==> forall p :: p in l ==> p.0 != n
    ensures r.Some? ==> exists k :: 0 <= k < |l| && l[k] == (n, r.value) && forall j :: 0 <= j < k ==> l[j].0 != n
  {
    var named := Named(l, n);
    KeepMembers(l, NameIs(n));
    if named == [] then None
    else
      assert named[0] in named;
      KeepHead(l, NameIs(n));
      Some(named[0].1)
  }

  /** `delete(n)`: removes every pair named `n`. */
  function Delete(l: seq<Param>, n: string): (r: seq<Param>)
    ensures forall p :: p in r <==> p in l && p.0 != n
    ensures IsSubsequence(r, l)
  {
    KeepMembers(l, NameIsNot(n));
    KeepIsSubsequence(l, NameIsNot(n));
    Keep(l, NameIsNot(n))
  }

  /** `set(n, v)`: the first pair named `n` takes value `v` and the other pairs
      named `n` are removed; with no pair named `n`, `(n, v)` is appended. */
  function Set(l: seq<Param>, n: string, v: string): (r: seq<Param>)
    ensures forall p :: p in r <==> (p in l && p.0 != n) || p == (n, v)
  {
    if l == [] then [(n, v)]
    else if l[0].0 == n then [(n, v)] + Delete(l[1..], n)
    else [l[0]] + Set(l[1..], n, v)
  }

  /** With no pair named `n`, `set` appends `(n, v)`. */
  lemma {:induction false} SetAppends(l: seq<Param>, n: string, v: string)
    requires forall p :: p in l ==> p.0 != n
    ensures Set(l, n, v) == l + [(n, v)]
  {
    if l != [] {
      SetAppends(l[1..], n, v);
      assert l == [l[0]] + l[1..];
    }
  }

  /** When the first pair named `n` is at `k`, `set` puts `(n, v)` in its place,
      keeps the pairs before it and drops the later pairs named `n`. */
  lemma {:induction false} SetReplacesFirst(l: seq<Param>, n: string, v: string, k: int)
    requires 0 <= k < |l| && l[k].0 == n
    requires forall j :: 0 <= j < k ==> l[j].0 != n
    ensures Set(l, n, v) == l[..k] + [(n, v)] + Delete(l[k + 1..], n)
  {
    if k == 0 {
      assert l[..k] == [];
    } else {
      var tail := l[1..];
      assert l[0].0 != n;
      assert Set(l, n, v) == [l[0]] + Set(tail, n, v);
      assert tail[k - 1] == l[k];
      assert forall j :: 0 <= j < k - 1 ==> tail[j] == l[j + 1];
      SetReplacesFirst(tail, n, v, k - 1);
      assert l[k + 1..] == tail[k..];
      ConsSplit(l, k, [(n, v)], Delete(tail[k..], n), Set(tail, n, v));
    }
  }

  /** Putting the head of `l` back in front of a list that starts with the tail's
      first `k - 1` elements gives one that starts with `l[..k]`. */
  lemma ConsSplit<T>(l: seq<T>, k: int, mid: seq<T>, rest: seq<T>, r: seq<T>)
    requires 0 < k <= |l|
    requires r == l[1..][..k - 1] + mid + rest
    ensures [l[0]] + r == l[..k] + mid + rest
  {
    assert l[..k] == [l[0]] + l[1..][..k - 1];
  }

  /** A JavaScript truthiness test on a nullable string: present and non-empty. */
  predicate Truthy(o: Option<string>) {
    o.Some? && o.value != ""
  }

  /** The pairs named `n` after one outbound step on that name. */
  function Normal(n: string, v: Option<string>): seq<Param> {
    if Truthy(v) then [(n, v.value)] else []
  }

  /** One step of the outbound effect: `set` when the slice is truthy, `delete` otherwise.
      The pairs named otherwise stay, and those named `n` become the normal form. */
  function SetOrDelete(l: seq<Param>, n: string, v: Option<string>): (r: seq<Param>)
    ensures forall p :: p in r <==> (p in l && p.0 != n) || p in Normal(n, v)
  {
    if Truthy(v) then Set(l, n, v.value) else Delete(l, n)
  }

  function GroupByValue(g: Option<Category>): Option<string> {
    if g.Some? then Some(CategoryName(g.value)) else None
  }

  /** The query string the outbound effect writes for state `st` over the current
      one `l`: the pairs of `l` with untracked names, and one pair for each tracked
      slice that is truthy. */
  function Outbound(l: seq<Param>, st: TableState): (r: seq<Param>)
    ensures forall p :: p in r <==>
      (p in l && IsUntracked()(p))
      || p in Normal(IssueIdParam, st.openIssueId)
      || p in Normal(SearchParam, Some(st.search))
      || p in Normal(GroupByParam, GroupByValue(st.groupBy))
  {
    var withId := SetOrDelete(l, IssueIdParam, st.openIssueId);
    var withSearch := SetOrDelete(withId, SearchParam, Some(st.search));
    SetOrDelete(withSearch, GroupByParam, GroupByValue(st.groupBy))
  }

  /** The inbound effect: each tracked slice adopts its URL value when that value is
      present, non-empty and different from the slice. */
  function Adopt(st: TableState, l: seq<Param>): (r: TableState)
    ensures r.(openIssueId := st.openIssueId, search := st.search, groupBy := st.groupBy) == st
    ensures r.openIssueId != st.openIssueId ==>
      Truthy(Get(l, IssueIdParam)) && r.openIssueId == Get(l, IssueIdParam)
    ensures r.search != st.search ==>
      Truthy(Get(l, SearchParam)) && r.search == Get(l, SearchParam).value
    ensures r.groupBy != st.groupBy ==>
      Truthy(Get(l, GroupByParam)) && r.groupBy == ParseCategory(Get(l, GroupByParam).value)
    ensures Truthy(Get(l, IssueIdParam)) ==> r.openIssueId == Get(l, IssueIdParam)
    ensures Truthy(Get(l, SearchParam)) ==> r.search == Get(l, SearchParam).value
    ensures Truthy(Get(l, GroupByParam)) && ParseCategory(Get(l, GroupByParam).value).Some? ==>
      r.groupBy == ParseCategory(Get(l, GroupByParam).value)
  {
    var urlIssueId := Get(l, IssueIdParam);
    var urlSearch := Get(l, SearchParam);
    var urlGroupBy := Get(l, GroupByParam);
    var groupBy := if urlGroupBy.Some? then ParseCategory(urlGroupBy.value) else None;
    st.(
      openIssueId := if Truthy(urlIssueId) && urlIssueId != st.openIssueId then urlIssueId else st.openIssueId,
      search := if Truthy(urlSearch) && urlSearch.value != st.search then urlSearch.value else st.search,
      groupBy := if Truthy(urlGroupBy) && groupBy.Some? && groupBy != st.groupBy then groupBy else st.groupBy)
  }

  /** `Adopt` slice by slice, as the inbound effect's three conditional writes. */
  lemma AdoptFields(st: TableState, l: seq<Param>)
    ensures var u := Get(l, IssueIdParam);
      Adopt(st, l).openIssueId == if Truthy(u) && u != st.openIssueId then u else st.openIssueId
    ensures var u := Get(l, SearchParam);
      Adopt(st, l).search == if Truthy(u) && u.value != st.search then u.value else st.search
    ensures var u := Get(l, GroupByParam);
      Adopt(st, l).groupBy ==
        if Truthy(u) && ParseCategory(u.value).Some? && ParseCategory(u.value) != st.groupBy
        then ParseCategory(u.value) else st.groupBy
    ensures Adopt(st, l).(openIssueId := st.openIssueId, search := st.search, groupBy := st.groupBy) == st
  {
  }

  // ----- properties of set and delete -----

  lemma NamedOfDelete(l: seq<Param>, n: string)
    ensures Named(Delete(l, n), n) == []
  {
    var d := Delete(l, n);
    forall i | 0 <= i < |d| ensures !NameIs(n)(d[i]) {
      assert d[i] in d;
    }
    KeepNone(d, NameIs(n));
  }

  /** `delete` removes only pairs named `n`: a filter excluding that name is unaffected. */
  lemma DeleteKeepsOthers(l: seq<Param>, n: string, p: Param -> bool)
    requires forall x :: p(x) ==> x.0 != n
    ensures Keep(Delete(l, n), p) == Keep(l, p)
  {
    KeepOfKeep(l, NameIsNot(n), p);
  }

  /** After `set(n, v)` exactly one pair is named `n`, and its value is `v`. */
  lemma {:induction false} NamedOfSet(l: seq<Param>, n: string, v: string)
    ensures Named(Set(l, n, v), n) == [(n, v)]
  {
    if l == [] {
    } else if l[0].0 == n {
      KeepAppend([(n, v)], Delete(l[1..], n), NameIs(n));
      NamedOfDelete(l[1..], n);
    } else {
      NamedOfSet(l[1..], n, v);
      KeepAppend([l[0]], Set(l[1..], n, v), NameIs(n));
    }
  }

  /** `set` changes only pairs named `n`: a filter excluding that name is unaffected. */
  lemma {:induction false} SetKeepsOthers(l: seq<Param>, n: string, v: string, p: Param -> bool)
    requires forall x :: p(x) ==> x.0 != n
    ensures Keep(Set(l, n, v), p) == Keep(l, p)
  {
    if l == [] {
      assert !p((n, v));
    } else if l[0].0 == n {
      KeepAppend([(n, v)], Delete(l[1..], n), p);
      DeleteKeepsOthers(l[1..], n, p);
      assert !p((n, v)) && !p(l[0]);
    } else {
      SetKeepsOthers(l[1..], n, v, p);
      KeepAppend([l[0]], Set(l[1..], n, v), p);
    }
  }

  /** `set` is a no-op when the list already holds exactly the pair `(n, v)` under that name. */
  lemma {:induction false} SetNoop(l: seq<Param>, n: string, v: string)
    requires Named(l, n) == [(n, v)]
    ensures Set(l, n, v) == l
  {
    assert l != [];
    if l[0].0 == n {
      assert Named(l, n) == [l[0]] + Named(l[1..], n) by {
        assert l == [l[0]] + l[1..];
        KeepAppend([l[0]], l[1..], NameIs(n));
      }
      assert l[0] == (n, v);
      assert Named(l[1..], n) == [];
      KeepAll(l[1..], NameIsNot(n)) by {
        forall i | 0 <= i < |l[1..]| ensures NameIsNot(n)(l[1..][i]) {
          if l[1..][i].0 == n {
            KeepMember(l[1..], NameIs(n), l[1..][i]);
          }
        }
      }
    } else {
      SetNoop(l[1..], n, v);
    }
  }

  /** `delete` is a no-op when no pair has that name. */
  lemma DeleteNoop(l: seq<Param>, n: string)
    requires Named(l, n) == []
    ensures Delete(l, n) == l
  {
    forall i | 0 <= i < |l| ensures NameIsNot(n)(l[i]) {
      if l[i].0 == n {
        KeepMember(l, NameIs(n), l[i]);
      }
    }
    KeepAll(l, NameIsNot(n));
  }

  lemma NamedOfSetOrDelete(l: seq<Param>, n: string, v: Option<string>)
    ensures Named(SetOrDelete(l, n, v), n) == Normal(n, v)
  {
    if Truthy(v) { NamedOfSet(l, n, v.value); } else { NamedOfDelete(l, n); }
  }

  lemma SetOrDeleteKeepsOthers(l: seq<Param>, n: string, v: Option<string>, p: Param -> bool)
    requires forall x :: p(x) ==> x.0 != n
    ensures Keep(SetOrDelete(l, n, v), p) == Keep(l, p)
  {
    if Truthy(v) { SetKeepsOthers(l, n, v.value, p); } else { DeleteKeepsOthers(l, n, p); }
  }

  lemma SetOrDeleteNoop(l: seq<Param>, n: string, v: Option<string>)
    requires Named(l, n) == Normal(n, v)
    ensures SetOrDelete(l, n, v) == l
  {
    if Truthy(v) { SetNoop(l, n, v.value); } else { DeleteNoop(l, n); }
  }

  // ----- properties of the outbound rewrite -----

  /** After the rewrite each tracked name holds exactly its normal form:
      one pair carrying the slice's value when the slice is truthy, none otherwise. */
  lemma OutboundNamed(l: seq<Param>, st: TableState)
    ensures Named(Outbound(l, st), IssueIdParam) == Normal(IssueIdParam, st.openIssueId)
    ensures Named(Outbound(l, st), SearchParam) == Normal(SearchParam, Some(st.search))
    ensures Named(Outbound(l, st), GroupByParam) == Normal(GroupByParam, GroupByValue(st.groupBy))
  {
    var l1 := SetOrDelete(l, IssueIdParam, st.openIssueId);
    var l2 := SetOrDelete(l1, SearchParam, Some(st.search));
    NamedOfSetOrDelete(l, IssueIdParam, st.openIssueId);
    SetOrDeleteKeepsOthers(l1, SearchParam, Some(st.search), NameIs(IssueIdParam));
    SetOrDeleteKeepsOthers(l2, GroupByParam, GroupByValue(st.groupBy), NameIs(IssueIdParam));
    NamedOfSetOrDelete(l1, SearchParam, Some(st.search));
    SetOrDeleteKeepsOthers(l2, GroupByParam, GroupByValue(st.groupBy), NameIs(SearchParam));
    NamedOfSetOrDelete(l2, GroupByParam, GroupByValue(st.groupBy));
  }

  /** `issueId` is present, with value openIssueId, exactly when openIssueId is
      non-empty; otherwise it is removed, never left empty. The same holds for
      `search` and for `groupBy`. */
  lemma OutboundReflectsState(l: seq<Param>, st: TableState)
    ensures Get(Outbound(l, st), IssueIdParam) == (if Truthy(st.openIssueId) then st.openIssueId else None)
    ensures Get(Outbound(l, st), SearchParam) == (if st.search != "" then Some(st.search) else None)
    ensures Get(Outbound(l, st), GroupByParam) == GroupByValue(st.groupBy)
    ensures |Named(Outbound(l, st), IssueIdParam)| <= 1 && |Named(Outbound(l, st), SearchParam)| <= 1
    ensures |Named(Outbound(l, st), GroupByParam)| <= 1
  {
    var o := Outbound(l, st);
    OutboundNamed(l, st);
    GetOfNormal(o, IssueIdParam, st.openIssueId);
    GetOfNormal(o, SearchParam, Some(st.search));
    GetOfNormal(o, GroupByParam, GroupByValue(st.groupBy));
  }

  /** A list whose pairs named `n` are the normal form of `v` answers `get(n)` with
      `v` when it is truthy and with null otherwise. */
  lemma GetOfNormal(l: seq<Param>, n: string, v: Option<string>)
    requires Named(l, n) == Normal(n, v)
    ensures Get(l, n) == (if Truthy(v) then v else None)
    ensures |Named(l, n)| <= 1
  {
  }

  /** Every pair with an untracked name survives the rewrite, in the same order. */
  lemma OutboundKeepsUntracked(l: seq<Param>, st: TableState)
    ensures Untracked(Outbound(l, st)) == Untracked(l)
  {
    var l1 := SetOrDelete(l, IssueIdParam, st.openIssueId);
    var l2 := SetOrDelete(l1, SearchParam, Some(st.search));
    SetOrDeleteKeepsOthers(l, IssueIdParam, st.openIssueId, IsUntracked());
    SetOrDeleteKeepsOthers(l1, SearchParam, Some(st.search), IsUntracked());
    SetOrDeleteKeepsOthers(l2, GroupByParam, GroupByValue(st.groupBy), IsUntracked());
  }

  /** Rewriting again from the same state leaves the query string as it is. */
  lemma OutboundIdempotent(l: seq<Param>, st: TableState)
    ensures Outbound(Outbound(l, st), st) == Outbound(l, st)
  {
    var o := Outbound(l, st);
    OutboundNamed(l, st);
    SetOrDeleteNoop(o, IssueIdParam, st.openIssueId);
    SetOrDeleteNoop(o, SearchParam, Some(st.search));
    SetOrDeleteNoop(o, GroupByParam, GroupByValue(st.groupBy));
  }

  /** Adopting the query string that the outbound rewrite produced changes nothing. */
  lemma AdoptAfterOutbound(l: seq<Param>, st: TableState)
    ensures Adopt(st, Outbound(l, st)) == st
  {
    OutboundReflectsState(l, st);
  }

  /** Adoption is idempotent: a second adoption from the same URL changes nothing. */
  lemma AdoptIdempotent(st: TableState, l: seq<Param>)
    ensures Adopt(Adopt(st, l), l) == Adopt(st, l)
  {
  }

  /** The browser history; the last entry is the current query string. */
  class History {
    var entries: seq<seq<Param>>

    ghost predicate Valid()
      reads this
    {
      |entries| > 0
    }

    function Current(): seq<Param>
      reads this
      requires Valid()
    {
      entries[|entries| - 1]
    }

    /** Navigation with `replace: true`: the current entry is overwritten, none is added. */
    method Replace(params: seq<Param>)
      requires Valid()
      modifies this
      ensures Valid() && |entries| == |old(entries)|
      ensures entries[..|entries| - 1] == old(entries)[..|entries| - 1]
      ensures Current() == params
    {
      entries := entries[|entries| - 1 := params];
    }
  }

  /** The hook: the store it mirrors, the history it writes, and whether the
      mount-time adoption has run. */
  class URLSyncHook {
    const store: ViewStore
    const history: History
    var mounted: bool

    constructor (store: ViewStore, history: History)
      ensures this.store == store && this.history == history && !mounted
    {
      this.store := store;
      this.history := history;
      mounted := false;
    }

    /** The inbound effect, registered with no dependencies: it adopts the URL at
        the first run only. */
    method RunInbound()
      requires history.Valid()
      modifies this, store
      ensures mounted
      ensures old(mounted) ==> store.Read() == old(store.Read())
      ensures !old(mounted) ==> store.Read() == Adopt(old(store.Read()), history.Current())
      ensures store.darkMode == old(store.darkMode)
    {
      if mounted {
        return;
      }
      AdoptURL(history.Current());
      mounted := true;
    }

    /** The inbound effect's body: each tracked slice is set from its URL value when
        that value is present, non-empty and different. */
    method AdoptURL(params: seq<Param>)
      modifies store
      ensures store.Read() == Adopt(old(store.Read()), params)
      ensures store.darkMode == old(store.darkMode)
    {
      ghost var before := store.Read();
      AdoptFields(before, params);
      var urlIssueId := Get(params, IssueIdParam);
      var urlSearch := Get(params, SearchParam);
      var urlGroupBy := Get(params, GroupByParam);
      if Truthy(urlIssueId) && urlIssueId != store.openIssueId {
        store.openIssueId := urlIssueId;
      }
      if Truthy(urlSearch) && urlSearch.value != store.search {
        store.search := urlSearch.value;
      }
      if Truthy(urlGroupBy) {
        var groupBy := ParseCategory(urlGroupBy.value);
        if groupBy.Some? && groupBy != store.groupBy {
          store.groupBy := groupBy;
        }
      }
    }

    /** The outbound effect: copies the current query string, sets or deletes each
        tracked parameter, and replaces the current history entry with the result. */
    method RunOutbound()
      requires history.Valid()
      modifies history
      ensures history.Valid() && |history.entries| == |old(history.entries)|
      ensures history.entries[..|history.entries| - 1] == old(history.entries)[..|history.entries| - 1]
      ensures history.Current() == Outbound(old(history.Current()), store.Read())
    {
      var params := history.Current();
      if Truthy(store.openIssueId) {
        params := Set(params, IssueIdParam, store.openIssueId.value);
      } else {
        params := Delete(params, IssueIdParam);
      }
      if store.search != "" {
        params := Set(params, SearchParam, store.search);
      } else {
        params := Delete(params, SearchParam);
      }
      if store.groupBy.Some? {
        params := Set(params, GroupByParam, CategoryName(store.groupBy.value));
      } else {
        params := Delete(params, GroupByParam);
      }
      history.Replace(params);
    }
  }
}
