/**
 * The task store of pkg/task/engine_store.go: the database map and the state index are fields,
 * every method does what the function of the same meaning in Tasks and Listing says. Each method
 * is one atomic step; clock readings and the order in which the database lists its keys are
 * parameters.
 */
module TaskStores {
  import opened StateMachine
  import opened Sequences
  import opened StateIndex
  import opened Tasks
  import opened Listing

  class TaskStore {
    var db: Db
    var stateIndex: Index
    const maxStateHistory: int

    ghost predicate Valid()
      reads this
    {
      KeysMatch(db) && AllSorted(stateIndex)
    }

    ghost function Content(): Store
      reads this
    {
      Store(db, stateIndex)
    }

    ghost predicate Lists(keys: seq<Id>)
      reads this
    {
      Distinct(keys) && Elements(keys) == db.Keys
    }

    /** Opening the store rebuilds the index from storage. */
    constructor (database: Db, maxStateHistory: int, keys: seq<Id>)
      requires KeysMatch(database) && Distinct(keys) && Elements(keys) == database.Keys
      ensures Valid() && this.maxStateHistory == maxStateHistory
      ensures Content() == Store(database, Rebuilt(database, keys))
    {
      this.maxStateHistory := maxStateHistory;
      db, stateIndex := database, map[];
      new;
      for i := 0 to |keys|
        invariant Valid() && db == database && stateIndex == Rebuilt(db, keys[..i])
      {
        assert keys[i] in Elements(keys);
        assert keys[..i + 1][..i] == keys[..i];
        var task := db[keys[i]];
        if task.archivedAt == None {
          AddToStateIndex(task.id, task.state, task.createdAt);
        }
      }
      assert keys[..|keys|] == keys;
    }

    method AddToStateIndex(id: Id, state: State, createdAt: Time)
      requires Valid()
      modifies this`stateIndex
      ensures Valid() && stateIndex == Add(old(stateIndex), id, state, createdAt)
    {
      var entries := Bucket(stateIndex, state);
      assert NewestFirst(entries);
      AddSorted(stateIndex, id, state, createdAt);
      var pos := SearchPosition(entries, createdAt);
      stateIndex := stateIndex[state := entries[..pos] + [IndexEntry(id, createdAt)] + entries[pos..]];
    }

    /** Binary search for the first entry that is not newer. */
    static method SearchPosition(entries: seq<IndexEntry>, createdAt: Time) returns (pos: nat)
      requires NewestFirst(entries)
      ensures pos == InsertAt(entries, createdAt)
    {
      var lo, hi := 0, |entries|;
      while lo < hi
        invariant 0 <= lo <= hi <= |entries|
        invariant forall i :: 0 <= i < lo ==> entries[i].createdAt > createdAt
        invariant forall i :: hi <= i < |entries| ==> entries[i].createdAt <= createdAt
      {
        var mid := (lo + hi) / 2;
        if entries[mid].createdAt > createdAt {
          lo := mid + 1;
        } else {
          hi := mid;
        }
      }
      pos := lo;
      InsertAtIsUnique(entries, createdAt, pos);
    }

    method RemoveFromStateIndex(id: Id, state: State)
      requires Valid()
      modifies this`stateIndex
      ensures Valid() && stateIndex == Remove(old(stateIndex), id, state)
    {
      if state !in stateIndex {
        return;
      }
      RemoveSorted(stateIndex, id, state);
      var entries := DropFirst(stateIndex[state], id);
      if |entries| == 0 {
        stateIndex := stateIndex - {state};
      } else {
        stateIndex := stateIndex[state := entries];
      }
    }

    /** Cuts the first entry of the task out, if there is one. */
    static method DropFirst(entries: seq<IndexEntry>, id: Id) returns (rest: seq<IndexEntry>)
      ensures rest == Without(entries, id)
    {
      var i := 0;
      while i < |entries| && entries[i].id != id
        invariant 0 <= i <= |entries| && forall k :: 0 <= k < i ==> entries[k].id != id
      {
        i := i + 1;
      }
      WithoutAt(entries, id, i);
      if i < |entries| {
        rest := entries[..i] + entries[i + 1..];
      } else {
        rest := entries;
      }
    }

    method MoveInStateIndex(id: Id, oldState: State, newState: State, createdAt: Time)
      requires Valid()
      modifies this`stateIndex
      ensures Valid() && stateIndex == Move(old(stateIndex), id, oldState, newState, createdAt)
    {
      if oldState == newState {
        return;
      }
      RemoveFromStateIndex(id, oldState);
      AddToStateIndex(id, newState, createdAt);
    }

    method Get(id: Id) returns (task: Option<Task>)
      ensures task == if id in db then Some(db[id]) else None
    {
      task := if id in db then Some(db[id]) else None;
    }

    method Create(task: Task, now: Time) returns (outcome: Outcome)
      requires Valid()
      modifies this
      ensures Valid() && Content() == Created(old(Content()), task, now)
      ensures outcome == if task.id == "" then InvalidId else Done
    {
      if task.id == "" {
        return InvalidId;
      }
      var t := task;
      if t.createdAt == 0 {
        t := t.(createdAt := now);
      }
      if t.updatedAt == 0 {
        t := t.(updatedAt := now);
      }
      if t.stateUpdatedAt == 0 {
        t := t.(stateUpdatedAt := now);
      }
      if t.state == "" {
        t := t.(state := PENDING);
      }
      db := db[t.id := t];
      AddToStateIndex(t.id, t.state, t.createdAt);
      outcome := Done;
    }

    method PutLocked(task: Task)
      requires Valid()
      modifies this`db
      ensures Valid() && db == Put(old(db), task)
    {
      db := db[task.id := task.(version := task.version + 1)];
    }

    method Update(task: Task, now: Time) returns (outcome: Outcome)
      requires Valid()
      modifies this
      ensures Valid() && (Content(), outcome) == Updated(old(Content()), task, now)
    {
      if task.id !in db {
        return NotFound;
      }
      var existing := db[task.id];
      if task.version != existing.version {
        return VersionConflict;
      }
      PutLocked(task.(updatedAt := now));
      if task.archivedAt != None && existing.archivedAt == None {
        RemoveFromStateIndex(task.id, existing.state);
      }
      outcome := Done;
    }

    method Delete(id: Id)
      requires Valid()
      modifies this
      ensures Valid() && Content() == Deleted(old(Content()), id)
    {
      if id !in db {
        return;
      }
      var task := db[id];
      db := db - {id};
      RemoveFromStateIndex(id, task.state);
    }

    method UpdateState(id: Id, state: State, now: Time) returns (outcome: Outcome)
      requires Valid()
      modifies this
      ensures Valid() && (Content(), outcome) == StateUpdated(old(Content()), id, state, now, maxStateHistory)
      ensures old(Consistent(Content())) && outcome == Done ==>
        (Consistent(Content()) <==> RecordsSafely(old(db)[id], state))
    {
      if id !in db {
        return NotFound;
      }
      var task := db[id];
      var oldState := task.state;
      UpdateStateSafety(Content(), id, state, now, maxStateHistory);
      var history := AppendFirstAttempt(task, state, now);
      PutLocked(task.(history := history, state := state, stateUpdatedAt := now, updatedAt := now));
      MoveInStateIndex(id, oldState, state, task.createdAt);
      outcome := Done;
    }

    method AppendFirstAttempt(task: Task, state: State, now: Time) returns (history: seq<Record>)
      ensures history == Trim(task.history + [Record(task.state, state, now, "system", "", 1)], maxStateHistory)
    {
      history := task.history + [Record(task.state, state, now, "system", "", 1)];
      if maxStateHistory > 0 && |history| > maxStateHistory {
        history := history[|history| - maxStateHistory..];
      }
    }

    method UpdateStateWithRecord(id: Id, state: State, actor: string, reason: string, now: Time) returns (outcome: Outcome)
      requires Valid()
      modifies this
      ensures Valid()
      ensures (Content(), outcome) == StateRecorded(old(Content()), id, state, actor, reason, now, maxStateHistory)
    {
      if id !in db {
        return NotFound;
      }
      var task := db[id];
      var oldState := task.state;
      task := AppendRecord(task, state, actor, reason, now);
      PutLocked(task);
      MoveInStateIndex(id, oldState, state, task.createdAt);
      outcome := Done;
    }

    /** The bookkeeping both recording operations share: attempt, record, trimming, state. */
    method AppendRecord(task: Task, state: State, actor: string, reason: string, now: Time) returns (t: Task)
      ensures t == Recorded(task, state, actor, reason, now, maxStateHistory)
    {
      var attempt := 1;
      if |task.history| > 0 {
        var last := task.history[|task.history| - 1];
        if last.to == state {
          attempt := last.attempt + 1;
        }
      }
      var history := task.history + [Record(task.state, state, now, actor, reason, attempt)];
      if maxStateHistory > 0 && |history| > maxStateHistory {
        history := history[|history| - maxStateHistory..];
      }
      t := task.(history := history, state := state, stateUpdatedAt := now, updatedAt := now);
    }

    /** The result of the post-commit hook is ignored, so it is not modelled. */
    method TransitionState(id: Id, c: Change, now: Time) returns (outcome: Outcome)
      requires Valid()
      modifies this
      ensures Valid() && (Content(), outcome) == Transitioned(old(Content()), id, c, now, maxStateHistory)
    {
      if id !in db {
        return NotFound;
      }
      var task := db[id];
      var oldState := task.state;
      task := AppendRecord(task, c.to, c.actor, c.reason, now);
      if c.setArchivedAt != None {
        task := task.(archivedAt := c.setArchivedAt);
      } else if c.clearArchived {
        task := task.(archivedAt := None);
      }
      if c.setRetryCount != None {
        task := task.(retryCount := c.setRetryCount.value);
      }
      if c.setTimeoutAt != None {
        task := task.(timeoutAt := c.setTimeoutAt);
      } else if c.clearTimeout {
        task := task.(timeoutAt := None);
      }
      PutLocked(task);
      MoveInStateIndex(id, oldState, c.to, task.createdAt);
      if c.setArchivedAt != None {
        RemoveFromStateIndex(id, c.to);
      }
      outcome := Done;
    }

    method UpdateResult(id: Id, result: TaskResult, now: Time) returns (outcome: Outcome)
      requires Valid()
      modifies this`db
      ensures Valid() && (Content(), outcome) == ResultUpdated(old(Content()), id, result, now)
    {
      if id !in db {
        return NotFound;
      }
      PutLocked(db[id].(result := Some(result), updatedAt := now));
      outcome := Done;
    }

    // ---------- reading ----------

    method List(f: Filter, keys: seq<Id>) returns (tasks: seq<Task>)
      requires Valid() && Lists(keys) && (f.state != "" ==> f.offset >= 0)
      ensures f.state != "" ==> tasks == ListedByState(Content(), f)
      ensures f.state == "" ==> exists all :: IsScan(db, f, all) && tasks == Page(all, f.offset, f.limit)
      ensures forall t :: t in tasks ==>
        && t.id in db && db[t.id] == t
        && (!f.includeArchived ==> t.archivedAt == None) && (f.state != "" ==> t.state == f.state)
        && (f.priority.Some? ==> t.priority == f.priority.value)
        && (f.createdAfter.Some? ==> f.createdAfter.value <= t.createdAt)
        && (f.createdBefore.Some? ==> t.createdAt <= f.createdBefore.value)
    {
      if f.state != "" {
        tasks := ListByState(f);
        ListedMatch(f);
        return;
      }
      var all := Scan(f, keys);
      ScannedMatch(f, all);
      tasks := all;
      if f.offset > 0 {
        if f.offset >= |tasks| {
          return [];
        }
        tasks := tasks[f.offset..];
      }
      if f.limit > 0 && f.limit < |tasks| {
        tasks := tasks[..f.limit];
      }
    }

    lemma ListedMatch(f: Filter)
      requires Valid()
      ensures forall t :: t in ListedByState(Content(), f) ==> t.id in db && db[t.id] == t && Matches(t, f)
    {
      forall t | t in ListedByState(Content(), f) ensures t.id in db && db[t.id] == t && Matches(t, f) {
        FetchMembers(db, Page(Bucket(stateIndex, f.state), f.offset, f.limit), f, t);
      }
    }

    lemma ScannedMatch(f: Filter, all: seq<Task>)
      requires Valid() && IsScan(db, f, all)
      ensures forall t :: t in Page(all, f.offset, f.limit) ==> t.id in db && db[t.id] == t && Matches(t, f)
    {
      forall t | t in Page(all, f.offset, f.limit) ensures t.id in db && db[t.id] == t && Matches(t, f) {
        ScanPageMembers(db, f, all, t);
      }
    }

    /** Collects every matching task and sorts; the sort may order equal times either way. */
    method Scan(f: Filter, keys: seq<Id>) returns (all: seq<Task>)
      requires Valid() && Lists(keys)
      ensures IsScan(db, f, all)
    {
      all := [];
      ghost var seen: Db := map[];
      assert Matching(seen, f) == {};
      for i := 0 to |keys|
        invariant seen.Keys == Elements(keys[..i]) && Within(seen, db)
        invariant IsScan(seen, f, all)
      {
        var id := keys[i];
        assert id in Elements(keys);
        KeyIsNew(keys, i);
        var task := db[id];
        var more := all;
        if Matches(task, f) {
          more := InsertTask(all, task);
        }
        ScanGrows(seen, f, task, all, more);
        all := more;
        seen := seen[id := task];
      }
      assert keys[..|keys|] == keys;
      assert seen == db;
    }

    method ListByState(f: Filter) returns (tasks: seq<Task>)
      requires Valid() && f.offset >= 0
      ensures tasks == ListedByState(Content(), f)
    {
      var entries := Bucket(stateIndex, f.state);
      var total := |entries|;
      var start := f.offset;
      if start > total {
        return [];
      }
      var end := total;
      if f.limit > 0 && start + f.limit < end {
        end := start + f.limit;
      }
      var page := entries[start..end];
      assert page == Page(entries, f.offset, f.limit);
      tasks := [];
      for i := 0 to |page|
        invariant tasks == Fetch(db, page[..i], f)
      {
        assert page[..i + 1][..i] == page[..i];
        var id := page[i].id;
        if id in db && Matches(db[id], f) {
          tasks := tasks + [db[id]];
        }
      }
      assert page[..|page|] == page;
    }

    method Count(f: Filter, keys: seq<Id>) returns (n: nat)
      requires Valid() && Lists(keys) && (f.state != "" && !StateOnly(f) ==> f.offset >= 0)
      ensures Consistent(Content()) && StateOnly(f) ==> n == |Matching(db, f)|
      ensures f.state == "" && f.offset <= 0 && f.limit <= 0 ==> n == |Matching(db, f)|
      ensures Consistent(Content()) && f.state != "" && !f.includeArchived && f.offset == 0 && f.limit <= 0 ==>
        n == |Matching(db, f)|
    {
      if f.state != "" && !f.includeArchived && f.priority == None && f.createdAfter == None && f.createdBefore == None {
        n := |Bucket(stateIndex, f.state)|;
        if Consistent(Content()) {
          BucketCountsMatches(Content(), f);
        }
        return;
      }
      var tasks := List(f, keys);
      n := |tasks|;
      if Consistent(Content()) && f.state != "" && !f.includeArchived {
        FetchIsScan(Content(), f);
      }
      assert |multiset(tasks)| == |tasks|;
    }
  }

  lemma UpdateStateSafety(s: Store, id: Id, to: State, now: Time, max: int)
    requires id in s.db
    ensures Consistent(s) ==> (Consistent(StateUpdated(s, id, to, now, max).0) <==> RecordsSafely(s.db[id], to))
  {
    if Consistent(s) {
      UpdateStateKeepsIndex(s, id, to, now, max);
    }
  }

  predicate Within(part: Db, db: Db) {
    forall id :: id in part ==> id in db && part[id] == db[id]
  }

  lemma MatchingGrows(db: Db, f: Filter, t: Task)
    requires KeysMatch(db) && t.id !in db
    ensures multiset(Matching(db[t.id := t], f)) ==
      multiset(Matching(db, f)) + (if Matches(t, f) then multiset{t} else multiset{})
  {
    var db' := db[t.id := t];
    forall x ensures x in Matching(db', f) <==> x in Matching(db, f) || (x == t && Matches(t, f)) {
      if x in Matching(db, f) {
        var id :| id in db && Matches(db[id], f) && db[id] == x;
        assert db'[id] == x;
      }
      if x == t && Matches(t, f) {
        assert db'[t.id] == x;
      }
    }
    assert t !in Matching(db, f);
  }

  lemma KeyIsNew(keys: seq<Id>, i: nat)
    requires Distinct(keys) && i < |keys|
    ensures keys[i] !in Elements(keys[..i]) && Elements(keys[..i + 1]) == Elements(keys[..i]) + {keys[i]}
  {
    assert keys[..i + 1] == keys[..i] + [keys[i]];
  }

  /** One more task scanned. */
  lemma ScanGrows(seen: Db, f: Filter, t: Task, all: seq<Task>, more: seq<Task>)
    requires KeysMatch(seen) && t.id !in seen && IsScan(seen, f, all)
    requires if Matches(t, f) then TasksNewestFirst(more) && multiset(more) == multiset(all) + multiset{t} else more == all
    ensures IsScan(seen[t.id := t], f, more)
  {
    MatchingGrows(seen, f, t);
  }

  method InsertTask(all: seq<Task>, t: Task) returns (r: seq<Task>)
    requires TasksNewestFirst(all)
    ensures TasksNewestFirst(r) && multiset(r) == multiset(all) + multiset{t}
  {
    var i := 0;
    while i < |all| && all[i].createdAt > t.createdAt
      invariant 0 <= i <= |all| && forall k :: 0 <= k < i ==> all[k].createdAt > t.createdAt
    {
      i := i + 1;
    }
    r := all[..i] + [t] + all[i..];
    InsertElements(all, i, t);
  }
}
