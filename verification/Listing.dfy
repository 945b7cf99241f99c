/** Listing and counting tasks (pkg/task/engine_store.go): full scan, indexed read, paging. */
module Listing {
  import opened StateMachine
  import opened Sequences
  import opened StateIndex
  import opened Tasks

  /** The empty state means any state. */
  datatype Filter = Filter(
    state: State, priority: Option<int>, createdAfter: Option<Time>, createdBefore: Option<Time>,
    limit: int, offset: int, includeArchived: bool)

  predicate Matches(t: Task, f: Filter) {
    && (f.includeArchived || t.archivedAt.None?)
    && (f.state == "" || t.state == f.state)
    && (f.priority.None? || t.priority == f.priority.value)
    && (f.createdAfter.None? || t.createdAt >= f.createdAfter.value)
    && (f.createdBefore.None? || t.createdAt <= f.createdBefore.value)
  }

  /** Only the state is constrained. */
  predicate StateOnly(f: Filter) {
    f.state != "" && !f.includeArchived && f.priority.None? && f.createdAfter.None? && f.createdBefore.None?
  }

  function Page<T>(ts: seq<T>, offset: int, limit: int): seq<T> {
    var rest := if offset <= 0 then ts else if offset >= |ts| then [] else ts[offset..];
    if 0 < limit < |rest| then rest[..limit] else rest
  }

  predicate TasksNewestFirst(ts: seq<Task>) {
    forall i, j :: 0 <= i < j < |ts| ==> ts[i].createdAt >= ts[j].createdAt
  }

  ghost function Matching(db: Db, f: Filter): set<Task> {
    set id | id in db && Matches(db[id], f) :: db[id]
  }

  /** What the full scan collects: every matching task once, newest first; ties in any order. */
  ghost predicate IsScan(db: Db, f: Filter, all: seq<Task>) {
    multiset(all) == multiset(Matching(db, f)) && TasksNewestFirst(all)
  }

  /** The stored tasks behind a list of index entries, those that match. */
  function Fetch(db: Db, es: seq<IndexEntry>, f: Filter): seq<Task> {
    if es == [] then []
    else
      var e := es[|es| - 1];
      Fetch(db, es[..|es| - 1], f) + if e.id in db && Matches(db[e.id], f) then [db[e.id]] else []
  }

  /** The indexed read: page the bucket, then fetch and filter. */
  function ListedByState(s: Store, f: Filter): seq<Task> {
    Fetch(s.db, Page(Bucket(s.index, f.state), f.offset, f.limit), f)
  }

  // ---------- what filters and pages let through ----------

  /** What a filter asks of a task, field by field. */
  lemma FilterMeaning(t: Task, f: Filter)
    ensures Matches(t, f) <==>
      && (!f.includeArchived ==> t.archivedAt == None) && (f.state != "" ==> t.state == f.state)
      && (f.priority.Some? ==> t.priority == f.priority.value)
      && (f.createdAfter.Some? ==> f.createdAfter.value <= t.createdAt)
      && (f.createdBefore.Some? ==> t.createdAt <= f.createdBefore.value)
  {
  }

  /** A page starts `offset` elements in, nothing skipped for a negative offset, and holds at most a positive `limit`. */
  lemma PageMeaning<T>(ts: seq<T>, offset: int, limit: int)
    ensures var start := if offset <= 0 then 0 else if offset < |ts| then offset else |ts|;
      var n := if 0 < limit < |ts| - start then limit else |ts| - start;
      |Page(ts, offset, limit)| == n && forall i :: 0 <= i < n ==> Page(ts, offset, limit)[i] == ts[start + i]
  {
  }

  lemma {:induction false} FetchMembers(db: Db, es: seq<IndexEntry>, f: Filter, t: Task)
    requires t in Fetch(db, es, f)
    ensures exists e :: e in es && e.id in db && db[e.id] == t && Matches(t, f)
  {
    var pre, e := es[..|es| - 1], es[|es| - 1];
    assert es == pre + [e];
    if t in Fetch(db, pre, f) {
      FetchMembers(db, pre, f, t);
      var x :| x in pre && x.id in db && db[x.id] == t && Matches(t, f);
      assert x in es;
    } else {
      assert e in es;
    }
  }

  /** A page of a scan holds stored tasks that match. */
  lemma ScanPageMembers(db: Db, f: Filter, all: seq<Task>, t: Task)
    requires IsScan(db, f, all) && t in Page(all, f.offset, f.limit)
    ensures exists id :: id in db && db[id] == t && Matches(t, f)
  {
    assert t in all;
    assert t in multiset(all);
  }

  // ---------- the indexed read refines the scan ----------

  lemma {:induction false} FetchSorted(db: Db, es: seq<IndexEntry>, f: Filter)
    requires NewestFirst(es) && forall e :: e in es ==> e.id in db && db[e.id].createdAt == e.createdAt
    ensures TasksNewestFirst(Fetch(db, es, f))
    ensures forall t :: t in Fetch(db, es, f) ==> exists e :: e in es && db[e.id] == t && Matches(t, f)
  {
    if es != [] {
      var pre, e := es[..|es| - 1], es[|es| - 1];
      FetchSorted(db, pre, f);
      var r := Fetch(db, pre, f);
      forall i | 0 <= i < |r| ensures r[i].createdAt >= e.createdAt {
        assert r[i] in r;
        var x :| x in pre && db[x.id] == r[i];
        assert x in es;
        var k :| 0 <= k < |pre| && pre[k] == x;
        assert es[k] == x;
      }
      forall t | t in Fetch(db, es, f) ensures exists x :: x in es && db[x.id] == t && Matches(t, f) {
        if t in r {
          var x :| x in pre && db[x.id] == t && Matches(t, f);
          assert x in es;
        }
      }
    }
  }

  /** How often a task is fetched: once per entry that leads to it, if it matches. */
  lemma {:induction false} FetchCounts(db: Db, es: seq<IndexEntry>, f: Filter, t: Task)
    requires forall e :: e in es ==> e.id in db && db[e.id].id == e.id && db[e.id].createdAt == e.createdAt
    requires t.id in db ==> db[t.id].id == t.id
    ensures multiset(Fetch(db, es, f))[t] ==
      if t.id in db && db[t.id] == t && Matches(t, f) then multiset(es)[IndexEntry(t.id, t.createdAt)] else 0
  {
    if es != [] {
      var pre, e := es[..|es| - 1], es[|es| - 1];
      assert es == pre + [e];
      FetchCounts(db, pre, f, t);
    }
  }

  /** Without paging the whole bucket is fetched, and that is a scan. */
  lemma FetchIsScan(s: Store, f: Filter)
    requires Consistent(s) && f.state != "" && !f.includeArchived
    ensures IsScan(s.db, f, Fetch(s.db, Bucket(s.index, f.state), f))
  {
    var live, es := LiveTasks(s.db), Bucket(s.index, f.state);
    ListedOnce(s.index, live, f.state);
    assert NewestFirst(es);
    FetchSorted(s.db, es, f);
    forall t ensures multiset(Fetch(s.db, es, f))[t] == multiset(Matching(s.db, f))[t] {
      FetchCounts(s.db, es, f, t);
      var e := IndexEntry(t.id, t.createdAt);
      assert multiset(es)[e] == Occurs(live, f.state, e);
    }
  }

  lemma {:induction false} FetchAll(db: Db, es: seq<IndexEntry>, f: Filter)
    requires forall e :: e in es ==> e.id in db && Matches(db[e.id], f)
    ensures |Fetch(db, es, f)| == |es| && forall i :: 0 <= i < |es| ==> Fetch(db, es, f)[i] == db[es[i].id]
  {
    if es != [] {
      FetchAll(db, es[..|es| - 1], f);
      assert es[|es| - 1] in es;
    }
  }

  /** Paging the bucket and then fetching is fetching and then paging, when everything listed matches. */
  lemma PageCommutes(db: Db, es: seq<IndexEntry>, f: Filter)
    requires forall e :: e in es ==> e.id in db && Matches(db[e.id], f)
    ensures Fetch(db, Page(es, f.offset, f.limit), f) == Page(Fetch(db, es, f), f.offset, f.limit)
  {
    var p := Page(es, f.offset, f.limit);
    forall e | e in p ensures e in es {
    }
    FetchAll(db, es, f);
    FetchAll(db, p, f);
  }

  /** When creation times differ there is only one scan, and it is what the whole bucket leads to. */
  lemma ScanIsUnique(s: Store, f: Filter, all: seq<Task>)
    requires Consistent(s) && DistinctTimes(LiveTasks(s.db))
    requires f.state != "" && !f.includeArchived && IsScan(s.db, f, all)
    ensures Fetch(s.db, Bucket(s.index, f.state), f) == all
  {
    var live, r := LiveTasks(s.db), Fetch(s.db, Bucket(s.index, f.state), f);
    FetchIsScan(s, f);
    forall x, y | x in r && y in r && x.createdAt == y.createdAt ensures x == y {
      assert x in multiset(r) && y in multiset(r);
      assert x in Matching(s.db, f) && y in Matching(s.db, f);
      assert x.id in live && y.id in live;
    }
    DescendingIsUnique(r, all, (t: Task) => t.createdAt);
  }

  /**
   * For a state query that leaves archived tasks out, and creation times that differ, the indexed
   * read returns exactly the page the full scan returns: with paging if only the state is
   * constrained, and for any filter without paging.
   */
  lemma IndexedReadRefinesScan(s: Store, f: Filter, all: seq<Task>)
    requires Consistent(s) && DistinctTimes(LiveTasks(s.db))
    requires f.state != "" && !f.includeArchived
    requires StateOnly(f) || (f.offset <= 0 && f.limit <= 0)
    requires IsScan(s.db, f, all)
    ensures ListedByState(s, f) == Page(all, f.offset, f.limit)
  {
    ScanIsUnique(s, f, all);
    if StateOnly(f) {
      ListedOnce(s.index, LiveTasks(s.db), f.state);
      PageCommutes(s.db, Bucket(s.index, f.state), f);
    }
  }

  // ---------- paging before filtering ----------

  /** The entries the indexed read skips, and those after its page. */
  function Skipped(es: seq<IndexEntry>, f: Filter): seq<IndexEntry> {
    if f.offset <= 0 then [] else if f.offset >= |es| then es else es[..f.offset]
  }

  function Unread(es: seq<IndexEntry>, f: Filter): seq<IndexEntry> {
    var k := |Skipped(es, f)| + |Page(es, f.offset, f.limit)|;
    if k <= |es| then es[k..] else []
  }

  /** How many of the entries lead to a matching task. */
  function Hits(db: Db, es: seq<IndexEntry>, f: Filter): nat {
    |Fetch(db, es, f)|
  }

  /**
   * If the page holds a match: all skipped entries match, and so does the whole page unless nothing
   * after it does. If it holds none: there are no more matches than the offset skips.
   */
  predicate PageFits(db: Db, es: seq<IndexEntry>, f: Filter) {
    var before, page, rest := Skipped(es, f), Page(es, f.offset, f.limit), Unread(es, f);
    if Hits(db, page, f) > 0 then
      Hits(db, before, f) == f.offset && (Hits(db, page, f) == |page| || Hits(db, rest, f) == 0)
    else Hits(db, before, f) + Hits(db, rest, f) <= f.offset
  }

  lemma {:induction false} FetchConcat(db: Db, a: seq<IndexEntry>, b: seq<IndexEntry>, f: Filter)
    ensures Fetch(db, a + b, f) == Fetch(db, a, f) + Fetch(db, b, f)
  {
    if b == [] {
      assert a + b == a;
    } else {
      FetchConcat(db, a, b[..|b| - 1], f);
      assert (a + b)[..|a + b| - 1] == a + b[..|b| - 1];
    }
  }

  lemma {:induction false} FetchShort(db: Db, es: seq<IndexEntry>, f: Filter)
    ensures Hits(db, es, f) <= |es|
  {
    if es != [] {
      FetchShort(db, es[..|es| - 1], f);
    }
  }

  /** Which page of a + b + c is b, when a is what is left of `offset` skipped elements and b of `width`. */
  lemma PageOfParts(a: seq<Task>, b: seq<Task>, c: seq<Task>, offset: nat, limit: int, width: nat)
    requires Distinct(a + b + c) && |a| <= offset && |b| <= width
    requires (limit > 0 ==> width <= limit) && (c != [] ==> width == limit)
    ensures Page(a + b + c, offset, limit) == b <==>
      if b != [] then |a| == offset && (|b| == width || c == []) else |a| + |c| <= offset
  {
    var q := a + b + c;
    var page := Page(q, offset, limit);
    if b != [] && |a| < offset < |q| {
      assert page[0] == q[offset] && b[0] == q[|a|];
    } else if b != [] && |a| == offset {
      assert q[offset..] == b + c;
    }
  }

  lemma ScanIsDistinct(db: Db, f: Filter, all: seq<Task>)
    requires IsScan(db, f, all)
    ensures Distinct(all)
  {
    forall i, j | 0 <= i < j < |all| ensures all[i] != all[j] {
      if all[i] == all[j] {
        TwiceCounts(all, i, j);
      }
    }
  }

  lemma PagingParts(es: seq<IndexEntry>, f: Filter)
    requires f.offset >= 0
    ensures var page, rest := Page(es, f.offset, f.limit), Unread(es, f);
      && es == Skipped(es, f) + page + rest && |Skipped(es, f)| <= f.offset
      && (f.limit > 0 ==> |page| <= f.limit) && (rest != [] ==> |page| == f.limit)
  {
  }

  lemma FetchParts(db: Db, a: seq<IndexEntry>, b: seq<IndexEntry>, c: seq<IndexEntry>, f: Filter)
    ensures Fetch(db, a + b + c, f) == Fetch(db, a, f) + Fetch(db, b, f) + Fetch(db, c, f)
  {
    FetchConcat(db, a + b, c, f);
    FetchConcat(db, a, b, f);
  }

  lemma PagedFetch(db: Db, es: seq<IndexEntry>, f: Filter, all: seq<Task>)
    requires f.offset >= 0 && Fetch(db, es, f) == all && Distinct(all)
    ensures Fetch(db, Page(es, f.offset, f.limit), f) == Page(all, f.offset, f.limit) <==> PageFits(db, es, f)
  {
    var before, page, rest := Skipped(es, f), Page(es, f.offset, f.limit), Unread(es, f);
    PagingParts(es, f);
    FetchParts(db, before, page, rest, f);
    FetchShort(db, before, f);
    FetchShort(db, page, f);
    FetchShort(db, rest, f);
    PageOfParts(Fetch(db, before, f), Fetch(db, page, f), Fetch(db, rest, f), f.offset, f.limit, |page|);
  }

  /**
   * With paging, a filter on more than the state is applied too late: the page is cut out first. The
   * indexed read still returns the page of the full scan exactly if the page fits.
   */
  lemma PagedReadIsExact(s: Store, f: Filter, all: seq<Task>)
    requires Consistent(s) && DistinctTimes(LiveTasks(s.db))
    requires f.state != "" && !f.includeArchived && f.offset >= 0 && IsScan(s.db, f, all)
    ensures ListedByState(s, f) == Page(all, f.offset, f.limit) <==> PageFits(s.db, Bucket(s.index, f.state), f)
  {
    ScanIsUnique(s, f, all);
    ScanIsDistinct(s.db, f, all);
    PagedFetch(s.db, Bucket(s.index, f.state), f, all);
  }

  /** The shortcut of Count: the length of the bucket is the number of matching tasks. */
  lemma BucketCountsMatches(s: Store, f: Filter)
    requires Consistent(s) && StateOnly(f)
    ensures |Bucket(s.index, f.state)| == |Matching(s.db, f)|
  {
    var es := Bucket(s.index, f.state);
    FetchIsScan(s, f);
    ListedOnce(s.index, LiveTasks(s.db), f.state);
    FetchAll(s.db, es, f);
    var r := Fetch(s.db, es, f);
    assert |r| == |multiset(r)| == |multiset(Matching(s.db, f))|;
  }

  /** Without paging, an indexed read finds each matching un-archived task once and nothing else. */
  lemma ListedCounts(s: Store, f: Filter, t: Task)
    requires Consistent(s) && f.state != "" && f.offset <= 0 && f.limit <= 0
    ensures multiset(ListedByState(s, f))[t] == if t in Matching(s.db, f) && t.archivedAt.None? then 1 else 0
  {
    var live, es := LiveTasks(s.db), Bucket(s.index, f.state);
    ListedOnce(s.index, live, f.state);
    FetchCounts(s.db, es, f, t);
    var e := IndexEntry(t.id, t.createdAt);
    assert multiset(es)[e] == Occurs(live, f.state, e);
  }

  /**
   * The indexed read never returns an archived task, so a query that asks for them gets the whole
   * answer exactly when no archived task matches.
   */
  lemma ArchivedAreInvisible(s: Store, f: Filter)
    requires Consistent(s) && f.state != "" && f.includeArchived && f.offset <= 0 && f.limit <= 0
    ensures multiset(ListedByState(s, f)) == multiset(Matching(s.db, f)) <==>
      forall t :: t in Matching(s.db, f) ==> t.archivedAt.None?
  {
    var found, wanted := multiset(ListedByState(s, f)), Matching(s.db, f);
    forall t ensures found[t] == if t in wanted && t.archivedAt.None? then 1 else 0 {
      ListedCounts(s, f, t);
    }
    SameUnlessMissing(found, wanted);
  }

  lemma SameUnlessMissing(found: multiset<Task>, wanted: set<Task>)
    requires forall t :: found[t] == if t in wanted && t.archivedAt.None? then 1 else 0
    ensures found == multiset(wanted) <==> forall t :: t in wanted ==> t.archivedAt.None?
  {
    forall t | t in wanted && t.archivedAt.Some? ensures found != multiset(wanted) {
      assert multiset(wanted)[t] == 1 && found[t] == 0;
    }
  }
}
