/** The ring-buffer event log of pkg/eventlog/ringbuffer.go. */
module RingLog {
  import opened StateMachine
  import opened Sequences
  import opened EventLogs

  /** The index lists, for every key, exactly the IDs of the live entries with it, in order. */
  ghost predicate Tracks(ix: KeyIndex, live: seq<Entry>, kind: KeyKind) {
    && "" !in ix
    && (forall k :: k in ix ==> ix[k] != [])
    && (forall k :: k != "" ==> Listed(ix, k) == IdsWith(live, kind, k))
  }

  lemma TracksAdd(ix: KeyIndex, live: seq<Entry>, kind: KeyKind, e: Entry)
    requires Tracks(ix, live, kind)
    ensures Tracks(AddId(ix, KeyOf(kind, e), e.id), live + [e], kind)
  {
    forall k | k != "" ensures Listed(AddId(ix, KeyOf(kind, e), e.id), k) == IdsWith(live + [e], kind, k) {
      IdsWithSnoc(live, e, kind, k);
    }
  }

  /** Taking the oldest entry's ID out leaves the index of the rest, even if IDs repeat. */
  lemma TracksEvict(ix: KeyIndex, live: seq<Entry>, kind: KeyKind)
    requires Tracks(ix, live, kind) && live != []
    ensures Tracks(DropId(ix, KeyOf(kind, live[0]), live[0].id), live[1..], kind)
  {
    var e, rest := live[0], live[1..];
    assert live == [e] + rest;
    var ix' := DropId(ix, KeyOf(kind, e), e.id);
    forall k | k != "" ensures Listed(ix', k) == IdsWith(rest, kind, k) {
      IdsWithCons(e, rest, kind, k);
    }
  }

  /** The newest n entries. */
  function Newest(all: seq<Entry>, n: nat): seq<Entry>
    requires n <= |all|
  {
    all[|all| - n..]
  }

  lemma NewestAppend(all: seq<Entry>, n: nat, e: Entry)
    requires n <= |all|
    ensures Newest(all + [e], n + 1) == Newest(all, n) + [e]
    ensures n > 0 ==> Newest(all + [e], n) == Newest(all, n)[1..] + [e]
  {
  }

  /** Where the i-th oldest of `count` live entries is stored. */
  function At(head: nat, count: nat, size: nat, i: nat): (p: nat)
    requires head < size && count <= size && i < count
    ensures p < size
  {
    (head + size - count + i) % size
  }

  /** After a store the newest entry is where the head was, and the others are where they were. */
  lemma PositionAfterStore(head: nat, count: nat, size: nat, i: nat)
    requires head < size && count <= size && i < (if count < size then count + 1 else size)
    ensures var head', count' := (head + 1) % size, if count < size then count + 1 else size;
      var j := if count < size then i else i + 1;
      if i == count' - 1 then At(head', count', size, i) == head
      else At(head', count', size, i) == At(head, count, size, j) != head
  {
    var head', count' := (head + 1) % size, if count < size then count + 1 else size;
    var j := if count < size then i else i + 1;
    WrapsOnce(head + 1, size);
    WrapsOnce(head' + size - count' + i, size);
    if i < count' - 1 {
      WrapsOnce(head + size - count + j, size);
    }
  }

  class RingBufferEventLog {
    const size: nat
    const entries: array<Entry>
    var head: nat
    var count: nat
    var traceIndex: KeyIndex
    var taskIndex: KeyIndex
    ghost var all: seq<Entry>

    /** A size that is not positive means ten thousand. */
    constructor (requested: int, filler: Entry)
      ensures Valid() && fresh(entries) && all == [] && size == if requested <= 0 then 10000 else requested
    {
      var n: nat := if requested <= 0 then 10000 else requested;
      size := n;
      entries := new Entry[n](_ => filler);
      head, count, all := 0, 0, [];
      traceIndex, taskIndex := map[], map[];
    }

    /** The buffer holds the newest entries, oldest first from the head on. */
    ghost predicate Stored()
      reads this, entries
    {
      && 0 < size == entries.Length && head < size
      && count == (if |all| < size then |all| else size)
      && (forall i :: 0 <= i < count ==> entries[At(head, count, size, i)] == all[|all| - count + i])
    }

    ghost predicate Valid()
      reads this, entries
    {
      Stored() && Indexed(Live())
    }

    /** The newest entries, as many as the log holds. */
    ghost function Live(): seq<Entry>
      reads this
    {
      if count <= |all| then Newest(all, count) else []
    }

    ghost predicate Indexed(live: seq<Entry>)
      reads this
    {
      Tracks(traceIndex, live, ByTrace) && Tracks(taskIndex, live, ByTask)
    }

    method Append(entry: Option<Entry>)
      requires Valid()
      modifies this, entries
      ensures Valid()
      ensures all == old(all) + (if entry.Some? then [entry.value] else [])
      ensures Live() == Newest(all, if |all| < size then |all| else size)
    {
      if entry == None {
        return;
      }
      ghost var kept := Live();
      NewestAppend(all, count, entry.value);
      if count == size {
        kept := kept[1..];
        EvictOldest();
      }
      Store(entry.value);
      IndexNewest(entry.value, kept);
    }

    method EvictOldest()
      requires Valid() && count == size
      modifies this`traceIndex, this`taskIndex
      ensures Stored() && Live() == old(Live()) && Live() != [] && Indexed(Live()[1..])
    {
      var oldest := entries[head];
      PositionOfOldest();
      assert oldest == Live()[0];
      TracksEvict(traceIndex, Live(), ByTrace);
      TracksEvict(taskIndex, Live(), ByTask);
      traceIndex := RemoveId(traceIndex, oldest.traceId, oldest.id);
      taskIndex := RemoveId(taskIndex, oldest.taskId, oldest.id);
    }

    method IndexNewest(e: Entry, ghost kept: seq<Entry>)
      requires Stored() && Indexed(kept)
      modifies this`traceIndex, this`taskIndex
      ensures Stored() && Live() == old(Live()) && Indexed(kept + [e])
    {
      TracksAdd(traceIndex, kept, ByTrace, e);
      TracksAdd(taskIndex, kept, ByTask, e);
      traceIndex := WithId(traceIndex, e.traceId, e.id);
      taskIndex := WithId(taskIndex, e.taskId, e.id);
    }

    static method WithId(ix: KeyIndex, k: string, id: string) returns (r: KeyIndex)
      ensures r == AddId(ix, k, id)
    {
      r := ix;
      if k != "" {
        r := r[k := Listed(r, k) + [id]];
      }
    }

    lemma PositionOfOldest()
      requires Stored() && count == size
      ensures entries[head] == all[|all| - count]
    {
      WrapsOnce(head, size);
      assert At(head, count, size, 0) == head;
    }

    /** Writes at the head, over the oldest entry if the log is full. */
    method Store(e: Entry)
      requires Stored()
      modifies this`head, this`count, this`all, entries
      ensures Stored() && all == old(all) + [e]
      ensures count == if old(count) < size then old(count) + 1 else size
    {
      ghost var oldHead, oldCount := head, count;
      entries[head] := e;
      head := (head + 1) % size;
      if count < size {
        count := count + 1;
      }
      all := all + [e];
      forall i | 0 <= i < count ensures entries[At(head, count, size, i)] == all[|all| - count + i] {
        PositionAfterStore(oldHead, oldCount, size, i);
        if i < count - 1 {
          var j := if oldCount < size then i else i + 1;
          assert old(entries[At(head, count, size, j)]) == old(all)[|old(all)| - oldCount + j];
        }
      }
    }

    // ---------- queries ----------

    method EntryAt(i: nat) returns (e: Entry)
      requires Valid() && i < count
      ensures e == Live()[i]
    {
      e := entries[At(head, count, size, i)];
    }

    method FindByIDs(ids: seq<string>) returns (result: seq<Entry>)
      requires Valid()
      ensures result == Where(Live(), HasIdIn(ids))
    {
      result := [];
      for i := 0 to count
        invariant result == Where(Live()[..i], HasIdIn(ids))
      {
        var e := EntryAt(i);
        WhereSnoc(Live(), i, HasIdIn(ids));
        if e.id in ids {
          result := result + [e];
        }
      }
      assert Live()[..count] == Live();
    }

    /**
     * A trace query returns the live entries whose ID is listed for the trace; with distinct IDs
     * these are exactly the live entries of that trace, in order.
     */
    method QueryByTraceID(traceId: string) returns (t: Timeline)
      requires Valid()
      ensures t.traceId == traceId && (traceId == "" ==> t.entries == [])
      ensures traceId != "" ==> t.entries == Where(Live(), HasIdIn(IdsWith(Live(), ByTrace, traceId)))
      ensures traceId != "" && DistinctEntryIds(Live()) ==> t.entries == Where(Live(), HasKey(ByTrace, traceId))
      ensures traceId != "" && DistinctEntryIds(Live()) ==>
        forall e :: e in t.entries <==> e in Live() && e.traceId == traceId
      ensures IsSpan(t.entries, t.duration) && t.tasks == TaskIds(t.entries)
      ensures forall x, y :: x in t.entries && y in t.entries ==> y.timestamp - x.timestamp <= t.duration
    {
      var ids := Listed(traceIndex, traceId);
      if DistinctEntryIds(Live()) {
        SelectByIds(Live(), ByTrace, traceId);
        KeyMembers(Live(), ByTrace, traceId);
      }
      if |ids| == 0 {
        NoIdsNoEntries(Live());
        return Timeline(traceId, [], {}, 0);
      }
      var found := FindByIDs(ids);
      var duration := Span(found);
      var tasks := CollectTasks(found);
      t := Timeline(traceId, found, tasks, duration);
    }

    method QueryByTaskID(taskId: string) returns (result: seq<Entry>)
      requires Valid()
      ensures taskId == "" ==> result == []
      ensures taskId != "" ==> result == Where(Live(), HasIdIn(IdsWith(Live(), ByTask, taskId)))
      ensures taskId != "" && DistinctEntryIds(Live()) ==> result == Where(Live(), HasKey(ByTask, taskId))
      ensures taskId != "" && DistinctEntryIds(Live()) ==> forall e :: e in result <==> e in Live() && e.taskId == taskId
    {
      var ids := Listed(taskIndex, taskId);
      if DistinctEntryIds(Live()) {
        SelectByIds(Live(), ByTask, taskId);
        KeyMembers(Live(), ByTask, taskId);
      }
      if |ids| == 0 {
        NoIdsNoEntries(Live());
        return [];
      }
      result := FindByIDs(ids);
    }

    /** The scan: matching live entries in order, the first `limit` of them if there is a limit. */
    method Query(f: LogFilter) returns (result: seq<Entry>)
      requires Valid()
      ensures result == FirstMatches(Live(), f)
      ensures forall e :: e in result ==> e in Live() && Asked(e, f)
      ensures f.limit > 0 ==> |result| <= f.limit
      ensures f.limit <= 0 || |result| < f.limit ==> forall e :: e in Live() && Asked(e, f) ==> e in result
    {
      FirstMatchesMeaning(Live(), f);
      result := [];
      ghost var live := Live();
      for i := 0 to count
        invariant result == Where(live[..i], MatchesOf(f)) && live == Live()
        invariant f.limit > 0 ==> |result| < f.limit
      {
        var e := EntryAt(i);
        WhereSnoc(live, i, MatchesOf(f));
        if LogMatches(e, f) {
          result := result + [e];
          if f.limit > 0 && |result| >= f.limit {
            StopEarly(live, i + 1, f);
            return;
          }
        }
      }
      assert live[..count] == live;
    }
  }

  lemma KeyMembers(es: seq<Entry>, kind: KeyKind, k: string)
    ensures forall e :: e in Where(es, HasKey(kind, k)) <==> e in es && KeyOf(kind, e) == k
  {
    forall e ensures e in Where(es, HasKey(kind, k)) <==> e in es && KeyOf(kind, e) == k {
      WhereMembers(es, HasKey(kind, k), e);
    }
  }

  function MatchesOf(f: LogFilter): Entry -> bool {
    e => LogMatches(e, f)
  }

  function FirstMatches(es: seq<Entry>, f: LogFilter): seq<Entry> {
    var ms := Where(es, MatchesOf(f));
    if 0 < f.limit < |ms| then ms[..f.limit] else ms
  }

  /** What a filter asks of an entry, field by field. */
  predicate Asked(e: Entry, f: LogFilter) {
    && (f.traceId != "" ==> e.traceId == f.traceId) && (f.taskId != "" ==> e.taskId == f.taskId)
    && (f.stage != "" ==> e.stage == f.stage) && (f.source != "" ==> e.source == f.source)
    && (f.startTime.Some? ==> f.startTime.value <= e.timestamp)
    && (f.endTime.Some? ==> e.timestamp <= f.endTime.value)
  }

  lemma FirstMatchesMeaning(es: seq<Entry>, f: LogFilter)
    ensures var r := FirstMatches(es, f);
      && (forall e :: e in r ==> e in es && Asked(e, f)) && (f.limit > 0 ==> |r| <= f.limit)
      && (f.limit <= 0 || |r| < f.limit ==> forall e :: e in es && Asked(e, f) ==> e in r)
  {
    forall e ensures e in Where(es, MatchesOf(f)) <==> e in es && Asked(e, f) {
      WhereMembers(es, MatchesOf(f), e);
    }
  }

  lemma WhereSnoc(es: seq<Entry>, i: nat, p: Entry -> bool)
    requires i < |es|
    ensures Where(es[..i + 1], p) == Where(es[..i], p) + if p(es[i]) then [es[i]] else []
  {
    assert es[..i + 1][..i] == es[..i];
  }

  lemma {:induction false} WhereAppend(a: seq<Entry>, b: seq<Entry>, p: Entry -> bool)
    ensures Where(a + b, p) == Where(a, p) + Where(b, p)
  {
    if b == [] {
      assert a + b == a;
    } else {
      var pre := b[..|b| - 1];
      assert (a + b)[..|a + b| - 1] == a + pre;
      WhereAppend(a, pre, p);
    }
  }

  /** Once `limit` matches are found, later entries do not count. */
  lemma StopEarly(es: seq<Entry>, n: nat, f: LogFilter)
    requires n <= |es| && f.limit > 0 && |Where(es[..n], MatchesOf(f))| == f.limit
    ensures FirstMatches(es, f) == Where(es[..n], MatchesOf(f))
  {
    assert es == es[..n] + es[n..];
    WhereAppend(es[..n], es[n..], MatchesOf(f));
  }

  lemma {:induction false} NoIdsNoEntries(es: seq<Entry>)
    ensures Where(es, HasIdIn([])) == []
  {
    if es != [] {
      NoIdsNoEntries(es[..|es| - 1]);
    }
  }
}
