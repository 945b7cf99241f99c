/** The database-backed event log of pkg/eventlog/store.go. */
module DbLog {
  import opened StateMachine
  import opened EventLogs

  type LogDb = map<string, Entry>

  /** The stored entries and the two indexes kept in memory. */
  datatype LogState = LogState(db: LogDb, trace: KeyIndex, task: KeyIndex)

  predicate IdsMatch(db: LogDb) {
    forall id :: id in db ==> db[id].id == id
  }

  /** How often an index of `db` should list an ID under a key. */
  function ListedTimes(db: LogDb, kind: KeyKind, k: string, id: string): nat {
    if k != "" && id in db && KeyOf(kind, db[id]) == k then 1 else 0
  }

  /** The index lists exactly the stored entries of each key, each once, and keeps no empty list. */
  ghost predicate Indexes(ix: KeyIndex, db: LogDb, kind: KeyKind) {
    && (forall k :: k in ix ==> ix[k] != [])
    && (forall k, id :: multiset(Listed(ix, k))[id] == ListedTimes(db, kind, k, id))
  }

  ghost predicate Sound(s: LogState) {
    IdsMatch(s.db) && Indexes(s.trace, s.db, ByTrace) && Indexes(s.task, s.db, ByTask)
  }

  // ---------- index steps ----------

  lemma AddIndexes(ix: KeyIndex, db: LogDb, kind: KeyKind, e: Entry)
    requires Indexes(ix, db, kind) && e.id !in db
    ensures Indexes(AddId(ix, KeyOf(kind, e), e.id), db[e.id := e], kind)
  {
    var ix', db' := AddId(ix, KeyOf(kind, e), e.id), db[e.id := e];
    forall k, id ensures multiset(Listed(ix', k))[id] == ListedTimes(db', kind, k, id) {
      AddIndexesAt(ix, db, kind, e, k, id);
    }
  }

  lemma AddIndexesAt(ix: KeyIndex, db: LogDb, kind: KeyKind, e: Entry, k: string, id: string)
    requires Indexes(ix, db, kind) && e.id !in db
    ensures multiset(Listed(AddId(ix, KeyOf(kind, e), e.id), k))[id] == ListedTimes(db[e.id := e], kind, k, id)
  {
    assert multiset(Listed(ix, k))[id] == ListedTimes(db, kind, k, id);
    AddCounts(ix, KeyOf(kind, e), e.id, k, id);
  }

  lemma AddCounts(ix: KeyIndex, key: string, x: string, k: string, id: string)
    ensures multiset(Listed(AddId(ix, key, x), k))[id] ==
      multiset(Listed(ix, k))[id] + if k == key && k != "" && id == x then 1 else 0
  {
  }

  lemma {:induction false} DroppedCounts(ids: seq<string>, x: string, id: string)
    ensures multiset(Dropped(ids, x))[id] == if id == x && x in ids then multiset(ids)[id] - 1 else multiset(ids)[id]
  {
    if ids != [] {
      assert ids == [ids[0]] + ids[1..];
      DroppedCounts(ids[1..], x, id);
    }
  }

  lemma DropIndexes(ix: KeyIndex, db: LogDb, kind: KeyKind, e: Entry)
    requires Indexes(ix, db, kind) && e.id in db && db[e.id] == e
    ensures Indexes(DropId(ix, KeyOf(kind, e), e.id), db - {e.id}, kind)
  {
    var key := KeyOf(kind, e);
    var ix', db' := DropId(ix, key, e.id), db - {e.id};
    assert forall k :: k in ix' ==> ix'[k] != [];
    forall k, id ensures multiset(Listed(ix', k))[id] == ListedTimes(db', kind, k, id) {
      assert multiset(Listed(ix, k))[id] == ListedTimes(db, kind, k, id);
      assert multiset(Listed(ix, k))[e.id] == ListedTimes(db, kind, k, e.id);
      DropCounts(ix, key, e.id, k, id);
    }
  }

  lemma DropCounts(ix: KeyIndex, key: string, x: string, k: string, id: string)
    ensures multiset(Listed(DropId(ix, key, x), k))[id] ==
      if k == key && k != "" && id == x && multiset(Listed(ix, k))[x] > 0 then multiset(Listed(ix, k))[id] - 1
      else multiset(Listed(ix, k))[id]
  {
    if k == key && k != "" {
      assert Listed(DropId(ix, key, x), k) == Dropped(Listed(ix, k), x);
      DroppedCounts(Listed(ix, k), x, id);
    } else {
      assert Listed(DropId(ix, key, x), k) == Listed(ix, k);
    }
  }

  /** Two sound indexes of the same entries list the same IDs under every key. */
  lemma IndexesAgree(a: KeyIndex, b: KeyIndex, db: LogDb, kind: KeyKind, k: string)
    requires Indexes(a, db, kind) && Indexes(b, db, kind)
    ensures multiset(Listed(a, k)) == multiset(Listed(b, k)) && (k in a <==> k in b)
  {
    assert forall id :: multiset(Listed(a, k))[id] == ListedTimes(db, kind, k, id) == multiset(Listed(b, k))[id];
    assert |multiset(Listed(a, k))| == |Listed(a, k)| && |multiset(Listed(b, k))| == |Listed(b, k)|;
  }

  // ---------- operations ----------

  /** An entry without an ID gets the generated one. */
  function Named(e: Entry, generated: string): Entry {
    if e.id == "" then e.(id := generated) else e
  }

  function Appended(s: LogState, e: Entry): LogState {
    LogState(s.db[e.id := e], AddId(s.trace, e.traceId, e.id), AddId(s.task, e.taskId, e.id))
  }

  function Forgotten(s: LogState, e: Entry): LogState {
    LogState(s.db - {e.id}, DropId(s.trace, e.traceId, e.id), DropId(s.task, e.taskId, e.id))
  }

  /** Cleanup over the entries read at its start, in the order listed. */
  function Cleaned(s: LogState, listed: seq<Entry>, before: int): LogState {
    if listed == [] then s
    else
      var s', e := Cleaned(s, listed[..|listed| - 1], before), listed[|listed| - 1];
      if e.timestamp < before then Forgotten(s', e) else s'
  }

  /** The index a restart builds, entries in the order listed. */
  function Reindexed(db: LogDb, listed: seq<Entry>): LogState {
    if listed == [] then LogState(db, map[], map[])
    else
      var s, e := Reindexed(db, listed[..|listed| - 1]), listed[|listed| - 1];
      LogState(db, AddId(s.trace, e.traceId, e.id), AddId(s.task, e.taskId, e.id))
  }

  /** A listing of the database: every stored entry once, in any order. */
  ghost predicate IsListing(db: LogDb, listed: seq<Entry>) {
    && DistinctEntryIds(listed)
    && (forall e :: e in listed ==> e.id in db && db[e.id] == e)
    && (forall id :: id in db ==> db[id] in listed)
  }

  lemma AppendIsSound(s: LogState, e: Entry)
    requires Sound(s) && e.id !in s.db
    ensures Sound(Appended(s, e))
  {
    AddIndexes(s.trace, s.db, ByTrace, e);
    AddIndexes(s.task, s.db, ByTask, e);
  }

  lemma DistinctPrefix(es: seq<Entry>)
    requires DistinctEntryIds(es) && es != []
    ensures DistinctEntryIds(es[..|es| - 1]) && forall x :: x in es[..|es| - 1] ==> x in es && x.id != es[|es| - 1].id
  {
  }

  /** Cleanup removes exactly the entries older than the cutoff and keeps the indexes sound. */
  lemma {:induction false} CleanupRemovesTheOld(s: LogState, listed: seq<Entry>, before: int)
    requires Sound(s) && DistinctEntryIds(listed) && forall e :: e in listed ==> e.id in s.db && s.db[e.id] == e
    ensures var s' := Cleaned(s, listed, before);
      && Sound(s')
      && (forall id :: id in s'.db <==> id in s.db && !(s.db[id] in listed && s.db[id].timestamp < before))
      && (forall id :: id in s'.db ==> s'.db[id] == s.db[id])
  {
    if listed != [] {
      var pre, e := listed[..|listed| - 1], listed[|listed| - 1];
      DistinctPrefix(listed);
      assert listed == pre + [e];
      CleanupRemovesTheOld(s, pre, before);
      var m := Cleaned(s, pre, before);
      assert e in listed;
      if e.timestamp < before {
        assert e.id in m.db && m.db[e.id] == e;
        DropIndexes(m.trace, m.db, ByTrace, e);
        DropIndexes(m.task, m.db, ByTask, e);
      }
    }
  }

  ghost function Part(db: LogDb, listed: seq<Entry>): LogDb {
    map id | id in db && db[id] in listed :: db[id]
  }

  lemma {:induction false} ReindexIsSound(db: LogDb, listed: seq<Entry>)
    requires IdsMatch(db) && DistinctEntryIds(listed) && forall e :: e in listed ==> e.id in db && db[e.id] == e
    ensures var s := Reindexed(db, listed);
      s.db == db && Indexes(s.trace, Part(db, listed), ByTrace) && Indexes(s.task, Part(db, listed), ByTask)
  {
    if listed == [] {
      assert Part(db, []) == map[];
    } else {
      var pre, e := listed[..|listed| - 1], listed[|listed| - 1];
      DistinctPrefix(listed);
      assert listed == pre + [e];
      ReindexIsSound(db, pre);
      var s := Reindexed(db, pre);
      assert e in listed;
      assert e.id !in Part(db, pre);
      assert Part(db, listed) == Part(db, pre)[e.id := e];
      AddIndexes(s.trace, Part(db, pre), ByTrace, e);
      AddIndexes(s.task, Part(db, pre), ByTask, e);
    }
  }

  // ---------- runs ----------

  datatype LogEvent =
    | Append(entry: Entry)
    | Cleanup(listed: seq<Entry>, before: int)
    | Reopen(listed: seq<Entry>)

  ghost predicate Possible(s: LogState, ev: LogEvent) {
    match ev
    case Append(e) => e.id !in s.db
    case Cleanup(listed, _) => IsListing(s.db, listed)
    case Reopen(listed) => IsListing(s.db, listed)
  }

  function Next(s: LogState, ev: LogEvent): LogState {
    match ev
    case Append(e) => Appended(s, e)
    case Cleanup(listed, before) => Cleaned(s, listed, before)
    case Reopen(listed) => Reindexed(s.db, listed)
  }

  function AfterAll(evs: seq<LogEvent>): LogState {
    if evs == [] then LogState(map[], map[], map[]) else Next(AfterAll(evs[..|evs| - 1]), evs[|evs| - 1])
  }

  ghost predicate IsLogRun(evs: seq<LogEvent>) {
    evs == [] || (IsLogRun(evs[..|evs| - 1]) && Possible(AfterAll(evs[..|evs| - 1]), evs[|evs| - 1]))
  }

  /** In every run of appends with new IDs, cleanups and restarts the indexes stay sound. */
  lemma {:induction false} LogRunsStaySound(evs: seq<LogEvent>)
    requires IsLogRun(evs)
    ensures Sound(AfterAll(evs))
  {
    if evs != [] {
      var s := AfterAll(evs[..|evs| - 1]);
      LogRunsStaySound(evs[..|evs| - 1]);
      match evs[|evs| - 1]
      case Append(e) => AppendIsSound(s, e);
      case Cleanup(listed, before) => CleanupRemovesTheOld(s, listed, before);
      case Reopen(listed) => ReopenIsSound(s.db, listed);
    }
  }

  /** The entry was appended, and no clean-up since had a cutoff after its time. */
  ghost predicate Survives(evs: seq<LogEvent>, e: Entry) {
    exists i :: 0 <= i < |evs| && evs[i] == Append(e)
                && forall j :: i < j < |evs| && evs[j].Cleanup? ==> evs[j].before <= e.timestamp
  }

  lemma SurvivesSnoc(evs: seq<LogEvent>, e: Entry)
    requires evs != []
    ensures var pre, ev := evs[..|evs| - 1], evs[|evs| - 1];
      Survives(evs, e) <==> ev == Append(e) || (Survives(pre, e) && !(ev.Cleanup? && ev.before > e.timestamp))
  {
    var pre, ev := evs[..|evs| - 1], evs[|evs| - 1];
    if Survives(pre, e) && !(ev.Cleanup? && ev.before > e.timestamp) {
      var i :| 0 <= i < |pre| && pre[i] == Append(e)
               && forall j :: i < j < |pre| && pre[j].Cleanup? ==> pre[j].before <= e.timestamp;
      assert evs[i] == Append(e);
      assert forall j :: i < j < |evs| && evs[j].Cleanup? ==> evs[j].before <= e.timestamp;
    }
    if Survives(evs, e) && ev != Append(e) {
      var i :| 0 <= i < |evs| && evs[i] == Append(e)
               && forall j :: i < j < |evs| && evs[j].Cleanup? ==> evs[j].before <= e.timestamp;
      assert pre[i] == Append(e);
      assert forall j :: i < j < |pre| && pre[j].Cleanup? ==> pre[j] == evs[j];
    }
  }

  /** In every run exactly the entries that were appended and have survived all clean-ups since are stored. */
  lemma {:induction false} StoredAreTheSurvivors(evs: seq<LogEvent>, e: Entry)
    requires IsLogRun(evs)
    ensures e.id in AfterAll(evs).db && AfterAll(evs).db[e.id] == e <==> Survives(evs, e)
  {
    if evs != [] {
      var pre := evs[..|evs| - 1];
      var s := AfterAll(pre);
      StoredAreTheSurvivors(pre, e);
      SurvivesSnoc(evs, e);
      LogRunsStaySound(pre);
      match evs[|evs| - 1]
      case Append(x) =>
      case Cleanup(listed, before) => OldOnesAreGone(s, listed, before);
      case Reopen(listed) => ReopenIsSound(s.db, listed);
    }
  }

  /** In every run the index of a trace, or of a task, leads to exactly its survivors, each once. */
  lemma QueriesFindTheSurvivors(evs: seq<LogEvent>, k: string, e: Entry)
    requires IsLogRun(evs) && k != ""
    ensures var s := AfterAll(evs);
      && multiset(Fetched(s.db, Listed(s.trace, k)))[e] == (if e.traceId == k && Survives(evs, e) then 1 else 0)
      && multiset(Fetched(s.db, Listed(s.task, k)))[e] == (if e.taskId == k && Survives(evs, e) then 1 else 0)
  {
    LogRunsStaySound(evs);
    StoredAreTheSurvivors(evs, e);
    var s := AfterAll(evs);
    FetchedCounts(s.db, Listed(s.trace, k), e);
    FetchedCounts(s.db, Listed(s.task, k), e);
    assert multiset(Listed(s.trace, k))[e.id] == ListedTimes(s.db, ByTrace, k, e.id);
    assert multiset(Listed(s.task, k))[e.id] == ListedTimes(s.db, ByTask, k, e.id);
  }

  lemma ReopenIsSound(db: LogDb, listed: seq<Entry>)
    requires IdsMatch(db) && IsListing(db, listed)
    ensures Sound(Reindexed(db, listed)) && Reindexed(db, listed).db == db
  {
    ReindexIsSound(db, listed);
    assert Part(db, listed) == db;
  }

  /** The indexes a run has built up list the same IDs as a restart would, whatever order it reads in. */
  lemma RestartChangesNothing(evs: seq<LogEvent>, listed: seq<Entry>, k: string)
    requires IsLogRun(evs) && IsListing(AfterAll(evs).db, listed)
    ensures var s, r := AfterAll(evs), Reindexed(AfterAll(evs).db, listed);
      multiset(Listed(s.trace, k)) == multiset(Listed(r.trace, k)) && multiset(Listed(s.task, k)) == multiset(Listed(r.task, k))
  {
    LogRunsStaySound(evs);
    var s := AfterAll(evs);
    ReopenIsSound(s.db, listed);
    var r := Reindexed(s.db, listed);
    IndexesAgree(s.trace, r.trace, s.db, ByTrace, k);
    IndexesAgree(s.task, r.task, s.db, ByTask, k);
  }

  // ---------- queries ----------

  /** The stored entries behind a list of IDs, in that order. */
  function Fetched(db: LogDb, ids: seq<string>): seq<Entry> {
    if ids == [] then []
    else Fetched(db, ids[..|ids| - 1]) + if ids[|ids| - 1] in db then [db[ids[|ids| - 1]]] else []
  }

  lemma {:induction false} FetchedCounts(db: LogDb, ids: seq<string>, e: Entry)
    requires IdsMatch(db)
    ensures multiset(Fetched(db, ids))[e] == if e.id in db && db[e.id] == e then multiset(ids)[e.id] else 0
  {
    if ids != [] {
      assert ids == ids[..|ids| - 1] + [ids[|ids| - 1]];
      FetchedCounts(db, ids[..|ids| - 1], e);
    }
  }

  ghost function WithKey(db: LogDb, kind: KeyKind, k: string): set<Entry> {
    set id | id in db && KeyOf(kind, db[id]) == k :: db[id]
  }

  /** What an indexed query returns: every stored entry with that key, once. */
  lemma FetchedIsExact(ix: KeyIndex, db: LogDb, kind: KeyKind, k: string)
    requires IdsMatch(db) && Indexes(ix, db, kind) && k != ""
    ensures multiset(Fetched(db, Listed(ix, k))) == multiset(WithKey(db, kind, k))
  {
    forall e ensures multiset(Fetched(db, Listed(ix, k)))[e] == multiset(WithKey(db, kind, k))[e] {
      FetchedCounts(db, Listed(ix, k), e);
      assert multiset(Listed(ix, k))[e.id] == ListedTimes(db, kind, k, e.id);
    }
  }

  // ---------- the code ----------

  class DbEventLog {
    var db: LogDb
    var traceIndex: KeyIndex
    var taskIndex: KeyIndex

    ghost function Content(): LogState
      reads this
    {
      LogState(db, traceIndex, taskIndex)
    }

    /** Opening the log rebuilds the indexes; `listed` is the order in which the database lists its entries. */
    constructor (database: LogDb, listed: seq<Entry>)
      requires IsListing(database, listed)
      ensures Content() == Reindexed(database, listed)
    {
      db, traceIndex, taskIndex := database, map[], map[];
      new;
      for i := 0 to |listed|
        invariant Content() == Reindexed(database, listed[..i])
      {
        assert listed[..i + 1][..i] == listed[..i];
        AddToIndexes(listed[i]);
      }
      assert listed[..|listed|] == listed;
    }

    method AddToIndexes(e: Entry)
      modifies this`traceIndex, this`taskIndex
      ensures traceIndex == AddId(old(traceIndex), e.traceId, e.id) && taskIndex == AddId(old(taskIndex), e.taskId, e.id)
    {
      if e.traceId != "" {
        traceIndex := traceIndex[e.traceId := Listed(traceIndex, e.traceId) + [e.id]];
      }
      if e.taskId != "" {
        taskIndex := taskIndex[e.taskId := Listed(taskIndex, e.taskId) + [e.id]];
      }
    }

    /** A nil entry is ignored; `generated` is the ID an entry without one gets. */
    method Append(entry: Option<Entry>, generated: string)
      modifies this
      ensures Content() == if entry.None? then old(Content()) else Appended(old(Content()), Named(entry.value, generated))
      ensures entry.Some? && entry.value.id != "" ==> db == old(db)[entry.value.id := entry.value]
      ensures entry.Some? && entry.value.id == "" ==> db == old(db)[generated := entry.value.(id := generated)]
      ensures old(Sound(Content())) && (entry.Some? ==> Named(entry.value, generated).id !in old(db)) ==> Sound(Content())
    {
      if entry == None {
        return;
      }
      var e := entry.value;
      if e.id == "" {
        e := e.(id := generated);
      }
      if Sound(Content()) && e.id !in db {
        AppendIsSound(Content(), e);
      }
      db := db[e.id := e];
      AddToIndexes(e);
    }

    method Cleanup(before: int, listed: seq<Entry>) returns (deleted: nat)
      requires Sound(Content()) && IsListing(db, listed)
      modifies this
      ensures Sound(Content()) && Content() == Cleaned(old(Content()), listed, before)
      ensures db == map id | id in old(db) && old(db)[id].timestamp >= before :: old(db)[id]
      ensures deleted == |old(db)| - |db|
    {
      deleted := 0;
      for i := 0 to |listed|
        invariant Content() == Cleaned(old(Content()), listed[..i], before)
        invariant deleted + |db| == |old(db)|
      {
        var e := listed[i];
        assert listed[..i + 1][..i] == listed[..i];
        StillStored(old(Content()), listed, i, before);
        if e.timestamp < before {
          Forget(e);
          deleted := deleted + 1;
        }
      }
      assert listed[..|listed|] == listed;
      OldOnesAreGone(old(Content()), listed, before);
    }

    method Forget(e: Entry)
      modifies this
      ensures Content() == Forgotten(old(Content()), e)
      ensures e.id in old(db) ==> |db| + 1 == |old(db)|
    {
      assert e.id in db ==> db.Keys == (db - {e.id}).Keys + {e.id};
      db := db - {e.id};
      traceIndex := RemoveId(traceIndex, e.traceId, e.id);
      taskIndex := RemoveId(taskIndex, e.taskId, e.id);
    }

    method GetByIDs(ids: seq<string>) returns (entries: seq<Entry>)
      ensures entries == Fetched(db, ids)
    {
      entries := [];
      for i := 0 to |ids|
        invariant entries == Fetched(db, ids[..i])
      {
        assert ids[..i + 1][..i] == ids[..i];
        if ids[i] in db {
          entries := entries + [db[ids[i]]];
        }
      }
      assert ids[..|ids|] == ids;
    }

    method QueryByTraceID(traceId: string) returns (t: Timeline)
      requires Sound(Content())
      ensures t.traceId == traceId
      ensures multiset(t.entries) == if traceId == "" then multiset{} else multiset(WithKey(db, ByTrace, traceId))
      ensures traceId != "" ==> forall id :: id in db ==> (db[id] in t.entries <==> db[id].traceId == traceId)
      ensures IsSpan(t.entries, t.duration) && t.tasks == TaskIds(t.entries)
      ensures forall x, y :: x in t.entries && y in t.entries ==> y.timestamp - x.timestamp <= t.duration
    {
      var ids := Listed(traceIndex, traceId);
      NothingUnderEmpty(traceIndex, db, ByTrace);
      if traceId != "" {
        FetchedIsExact(traceIndex, db, ByTrace, traceId);
        KeyMembers(db, ByTrace, traceId);
      }
      if |ids| == 0 {
        return Timeline(traceId, [], {}, 0);
      }
      var entries := GetByIDs(ids);
      if |entries| == 0 {
        return Timeline(traceId, [], {}, 0);
      }
      var duration := Span(entries);
      var tasks := CollectTasks(entries);
      t := Timeline(traceId, entries, tasks, duration);
    }

    method QueryByTaskID(taskId: string) returns (entries: seq<Entry>)
      requires Sound(Content())
      ensures multiset(entries) == if taskId == "" then multiset{} else multiset(WithKey(db, ByTask, taskId))
      ensures taskId != "" ==> forall id :: id in db ==> (db[id] in entries <==> db[id].taskId == taskId)
    {
      var ids := Listed(taskIndex, taskId);
      NothingUnderEmpty(taskIndex, db, ByTask);
      if taskId != "" {
        FetchedIsExact(taskIndex, db, ByTask, taskId);
        KeyMembers(db, ByTask, taskId);
      }
      if |ids| == 0 {
        return [];
      }
      entries := GetByIDs(ids);
    }
  }

  lemma KeyMembers(db: LogDb, kind: KeyKind, k: string)
    ensures forall id :: id in db ==> (db[id] in multiset(WithKey(db, kind, k)) <==> KeyOf(kind, db[id]) == k)
  {
  }

  lemma NothingUnderEmpty(ix: KeyIndex, db: LogDb, kind: KeyKind)
    requires Indexes(ix, db, kind)
    ensures Listed(ix, "") == []
  {
    var ids := Listed(ix, "");
    assert forall id :: multiset(ids)[id] == ListedTimes(db, kind, "", id);
    assert multiset(ids) == multiset{};
    assert |ids| == |multiset(ids)|;
  }

  lemma OldOnesAreGone(s: LogState, listed: seq<Entry>, before: int)
    requires Sound(s) && IsListing(s.db, listed)
    ensures Sound(Cleaned(s, listed, before))
    ensures Cleaned(s, listed, before).db == map id | id in s.db && s.db[id].timestamp >= before :: s.db[id]
  {
    CleanupRemovesTheOld(s, listed, before);
  }

  lemma StillStored(s: LogState, listed: seq<Entry>, i: nat, before: int)
    requires Sound(s) && IsListing(s.db, listed) && i < |listed|
    ensures var m := Cleaned(s, listed[..i], before); listed[i].id in m.db && m.db[listed[i].id] == listed[i]
  {
    assert forall x :: x in listed[..i] ==> x in listed;
    CleanupRemovesTheOld(s, listed[..i], before);
    assert listed[i] in listed;
    assert listed[i] !in listed[..i];
  }
}
