/**
 * Tasks, and the operations of the task store (pkg/task/engine_store.go) as functions from one
 * stored content to the next. Encoding to JSON is the identity; database calls succeed.
 */
module Tasks {
  import opened StateMachine
  import opened StateIndex
  import opened Sequences

  datatype Record = Record(
    from: State, to: State, timestamp: Time, triggeredBy: string, reason: string, attempt: int)

  datatype TaskResult = TaskResult(success: bool, error: string)

  /** `ruleTimeout` is the duration in the task's policy_timeout metadata, if that parses. */
  datatype Task = Task(
    id: Id, priority: int, version: int, retryCount: int, state: State,
    result: Option<TaskResult>, ruleTimeout: Option<int>,
    createdAt: Time, updatedAt: Time, stateUpdatedAt: Time,
    history: seq<Record>, timeoutAt: Option<Time>, archivedAt: Option<Time>)

  type Db = map<Id, Task>

  datatype Store = Store(db: Db, index: Index)

  datatype Outcome = Done | InvalidId | NotFound | VersionConflict | StateMismatch | Denied

  const PENDING: State := "pending"

  function LiveTasks(db: Db): Live {
    map id | id in db && db[id].archivedAt == None :: Slot(db[id].state, db[id].createdAt)
  }

  predicate KeysMatch(db: Db) {
    forall id :: id in db ==> db[id].id == id
  }

  /** The index agrees with the stored tasks. */
  ghost predicate Consistent(s: Store) {
    KeysMatch(s.db) && Mirrors(s.index, LiveTasks(s.db))
  }

  // ---------- one task ----------

  /** Trims a history to its last `max` records; no limit when `max` is not positive. */
  function Trim(h: seq<Record>, max: int): seq<Record> {
    if max > 0 && |h| > max then h[|h| - max..] else h
  }

  /** How often in a row the target has now been entered, judged from the last record kept. */
  function NextAttempt(h: seq<Record>, to: State): int {
    if |h| > 0 && h[|h| - 1].to == to then h[|h| - 1].attempt + 1 else 1
  }

  function NewRecord(t: Task, to: State, actor: string, reason: string, now: Time): Record {
    Record(t.state, to, now, actor, reason, NextAttempt(t.history, to))
  }

  function Recorded(t: Task, to: State, actor: string, reason: string, now: Time, max: int): Task {
    t.(history := Trim(t.history + [NewRecord(t, to, actor, reason, now)], max),
       state := to, stateUpdatedAt := now, updatedAt := now)
  }

  /** The arguments of TransitionState. */
  datatype Change = Change(
    to: State, actor: string, reason: string,
    setArchivedAt: Option<Time>, clearArchived: bool,
    clearTimeout: bool, setTimeoutAt: Option<Time>, setRetryCount: Option<int>)

  function Changed(t: Task, c: Change, now: Time, max: int): Task {
    var r := Recorded(t, c.to, c.actor, c.reason, now, max);
    r.(archivedAt := if c.setArchivedAt.Some? then c.setArchivedAt else if c.clearArchived then None else t.archivedAt,
       retryCount := if c.setRetryCount.Some? then c.setRetryCount.value else t.retryCount,
       timeoutAt := if c.setTimeoutAt.Some? then c.setTimeoutAt else if c.clearTimeout then None else t.timeoutAt)
  }

  function Bumped(t: Task): Task {
    t.(version := t.version + 1)
  }

  // ---------- the store ----------

  function Put(db: Db, t: Task): Db {
    db[t.id := Bumped(t)]
  }

  /** Zero times and the empty state are filled in, as for a task that was never stored. */
  function Initialized(t: Task, now: Time): Task {
    t.(createdAt := if t.createdAt == 0 then now else t.createdAt,
       updatedAt := if t.updatedAt == 0 then now else t.updatedAt,
       stateUpdatedAt := if t.stateUpdatedAt == 0 then now else t.stateUpdatedAt,
       state := if t.state == "" then PENDING else t.state)
  }

  function Created(s: Store, t: Task, now: Time): Store {
    if t.id == "" then s
    else
      var t' := Initialized(t, now);
      Store(s.db[t'.id := t'], Add(s.index, t'.id, t'.state, t'.createdAt))
  }

  function Updated(s: Store, t: Task, now: Time): (Store, Outcome) {
    if t.id !in s.db then (s, NotFound)
    else if t.version != s.db[t.id].version then (s, VersionConflict)
    else
      var existing := s.db[t.id];
      (Store(Put(s.db, t.(updatedAt := now)),
             if t.archivedAt.Some? && existing.archivedAt.None? then Remove(s.index, t.id, existing.state) else s.index),
       Done)
  }

  function Deleted(s: Store, id: Id): Store {
    if id !in s.db then s else Store(s.db - {id}, Remove(s.index, id, s.db[id].state))
  }

  /** UpdateState records every transition as a first attempt. */
  function StateUpdated(s: Store, id: Id, to: State, now: Time, max: int): (Store, Outcome) {
    if id !in s.db then (s, NotFound)
    else
      var t := s.db[id];
      var r := t.(history := Trim(t.history + [Record(t.state, to, now, "system", "", 1)], max),
                  state := to, stateUpdatedAt := now, updatedAt := now);
      (Store(Put(s.db, r), Move(s.index, id, t.state, to, t.createdAt)), Done)
  }

  function StateRecorded(s: Store, id: Id, to: State, actor: string, reason: string, now: Time, max: int): (Store, Outcome) {
    if id !in s.db then (s, NotFound)
    else
      var t := s.db[id];
      (Store(Put(s.db, Recorded(t, to, actor, reason, now, max)), Move(s.index, id, t.state, to, t.createdAt)), Done)
  }

  function Transitioned(s: Store, id: Id, c: Change, now: Time, max: int): (Store, Outcome) {
    if id !in s.db then (s, NotFound)
    else
      var t := s.db[id];
      var moved := Move(s.index, id, t.state, c.to, t.createdAt);
      (Store(Put(s.db, Changed(t, c, now, max)), if c.setArchivedAt.Some? then Remove(moved, id, c.to) else moved), Done)
  }

  function ResultUpdated(s: Store, id: Id, result: TaskResult, now: Time): (Store, Outcome) {
    if id !in s.db then (s, NotFound)
    else (s.(db := Put(s.db, s.db[id].(result := Some(result), updatedAt := now))), Done)
  }

  /** The index built from storage, the keys coming in the given order. */
  function Rebuilt(db: Db, keys: seq<Id>): Index {
    if keys == [] then map[]
    else
      var ix := Rebuilt(db, keys[..|keys| - 1]);
      var id := keys[|keys| - 1];
      if id in db && db[id].archivedAt.None? then Add(ix, db[id].id, db[id].state, db[id].createdAt) else ix
  }

  // ---------- what the operations write ----------

  /** Identity, priority, result, rule timeout and creation time are the same. */
  predicate SameOrigin(t: Task, t': Task) {
    && t'.id == t.id && t'.priority == t.priority && t'.result == t.result
    && t'.ruleTimeout == t.ruleTimeout && t'.createdAt == t.createdAt
  }

  /** All tasks but one are untouched. */
  ghost predicate OthersKept(s: Store, s': Store, id: Id) {
    && (forall k :: k != id ==> (k in s'.db <==> k in s.db))
    && (forall k :: k != id && k in s.db ==> s'.db[k] == s.db[k])
  }

  /** The last record of a history; with a limit of any size it is the one appended last. */
  predicate EndsWith(h: seq<Record>, r: Record) {
    h != [] && h[|h| - 1] == r
  }

  lemma CreateWrites(s: Store, t: Task, now: Time)
    requires t.id != ""
    ensures var s' := Created(s, t, now);
      && OthersKept(s, s', t.id) && t.id in s'.db
      && var t' := s'.db[t.id];
         && t'.id == t.id && t'.priority == t.priority && t'.result == t.result && t'.ruleTimeout == t.ruleTimeout
         && t'.version == t.version && t'.retryCount == t.retryCount && t'.history == t.history
         && t'.timeoutAt == t.timeoutAt && t'.archivedAt == t.archivedAt
         && t'.state == (if t.state == "" then "pending" else t.state)
         && t'.createdAt == (if t.createdAt == 0 then now else t.createdAt)
         && t'.updatedAt == (if t.updatedAt == 0 then now else t.updatedAt)
         && t'.stateUpdatedAt == (if t.stateUpdatedAt == 0 then now else t.stateUpdatedAt)
  {
  }

  /** Update takes over everything the caller hands in except version and update time. */
  lemma UpdateWrites(s: Store, t: Task, now: Time)
    ensures var (s', o) := Updated(s, t, now);
      && (o == NotFound <==> t.id !in s.db)
      && (o == VersionConflict <==> t.id in s.db && t.version != s.db[t.id].version)
      && (o == Done <==> t.id in s.db && t.version == s.db[t.id].version)
      && (o != Done ==> s' == s)
      && (o == Done ==>
           && OthersKept(s, s', t.id) && t.id in s'.db
           && s'.db[t.id].(version := t.version, updatedAt := t.updatedAt) == t
           && s'.db[t.id].version == t.version + 1 && s'.db[t.id].updatedAt == now)
  {
  }

  lemma ResultWrites(s: Store, id: Id, result: TaskResult, now: Time)
    requires KeysMatch(s.db)
    ensures var (s', o) := ResultUpdated(s, id, result, now);
      && (o == Done <==> id in s.db) && (o == NotFound <==> id !in s.db) && (o != Done ==> s' == s)
      && (o == Done ==>
           && OthersKept(s, s', id) && id in s'.db && s'.index == s.index
           && var t, t' := s.db[id], s'.db[id];
              && t'.result == Some(result) && t'.version == t.version + 1 && t'.updatedAt == now
              && t'.(result := t.result, version := t.version, updatedAt := t.updatedAt) == t)
  {
  }

  /** What one transition does to every field of the task. */
  lemma TransitionWrites(s: Store, id: Id, c: Change, now: Time, max: int)
    requires KeysMatch(s.db) && id in s.db
    ensures var (s', o) := Transitioned(s, id, c, now, max);
      && o == Done && OthersKept(s, s', id) && id in s'.db
      && var t, t' := s.db[id], s'.db[id];
         && SameOrigin(t, t') && t'.state == c.to && t'.version == t.version + 1
         && t'.updatedAt == now && t'.stateUpdatedAt == now
         && EndsWith(t'.history, Record(t.state, c.to, now, c.actor, c.reason, NextAttempt(t.history, c.to)))
         && t'.archivedAt == (if c.setArchivedAt.Some? then c.setArchivedAt else if c.clearArchived then None else t.archivedAt)
         && t'.timeoutAt == (if c.setTimeoutAt.Some? then c.setTimeoutAt else if c.clearTimeout then None else t.timeoutAt)
         && t'.retryCount == (if c.setRetryCount.Some? then c.setRetryCount.value else t.retryCount)
  {
  }

  lemma RecordWrites(s: Store, id: Id, to: State, actor: string, reason: string, now: Time, max: int)
    requires KeysMatch(s.db)
    ensures var (s', o) := StateRecorded(s, id, to, actor, reason, now, max);
      && (o == Done <==> id in s.db) && (o == NotFound <==> id !in s.db) && (o != Done ==> s' == s)
      && (o == Done ==>
           && OthersKept(s, s', id) && id in s'.db
           && var t, t' := s.db[id], s'.db[id];
              && SameOrigin(t, t') && t'.state == to && t'.version == t.version + 1 && t'.retryCount == t.retryCount
              && t'.updatedAt == now && t'.stateUpdatedAt == now
              && t'.timeoutAt == t.timeoutAt && t'.archivedAt == t.archivedAt
              && EndsWith(t'.history, Record(t.state, to, now, actor, reason, NextAttempt(t.history, to))))
  {
  }

  lemma UpdateStateWrites(s: Store, id: Id, to: State, now: Time, max: int)
    requires KeysMatch(s.db)
    ensures var (s', o) := StateUpdated(s, id, to, now, max);
      && (o == Done <==> id in s.db) && (o == NotFound <==> id !in s.db) && (o != Done ==> s' == s)
      && (o == Done ==>
           && OthersKept(s, s', id) && id in s'.db
           && var t, t' := s.db[id], s'.db[id];
              && SameOrigin(t, t') && t'.state == to && t'.version == t.version + 1 && t'.retryCount == t.retryCount
              && t'.updatedAt == now && t'.stateUpdatedAt == now
              && t'.timeoutAt == t.timeoutAt && t'.archivedAt == t.archivedAt
              && EndsWith(t'.history, Record(t.state, to, now, "system", "", 1)))
  {
  }

  lemma DeleteWrites(s: Store, id: Id)
    ensures id !in Deleted(s, id).db && OthersKept(s, Deleted(s, id), id)
  {
  }

  // ---------- what keeps the index right ----------

  /** Creation keeps the index right exactly for an un-archived task whose ID is not already live. */
  lemma CreateKeepsIndex(s: Store, t: Task, now: Time)
    requires Consistent(s) && t.id != ""
    ensures Consistent(Created(s, t, now)) <==> t.archivedAt.None? && t.id !in LiveTasks(s.db)
  {
    var s' := Created(s, t, now);
    var t' := Initialized(t, now);
    var live := LiveTasks(s.db);
    if t.id !in live && t.archivedAt.None? {
      AddMirrors(s.index, live, t.id, t'.state, t'.createdAt);
      assert LiveTasks(s'.db) == live[t.id := Slot(t'.state, t'.createdAt)];
    } else {
      CreateBreaksIndex(s, t, now);
    }
  }

  lemma CreateBreaksIndex(s: Store, t: Task, now: Time)
    requires Consistent(s) && t.id != "" && (t.archivedAt.Some? || t.id in LiveTasks(s.db))
    ensures !Mirrors(Created(s, t, now).index, LiveTasks(Created(s, t, now).db))
  {
    var s' := Created(s, t, now);
    var t' := Initialized(t, now);
    var live, live' := LiveTasks(s.db), LiveTasks(s'.db);
    var added := IndexEntry(t.id, t'.createdAt);
    var q, e := t'.state, added;
    if t.archivedAt.None? {
      q, e := live[t.id].state, IndexEntry(t.id, live[t.id].createdAt);
    }
    assert NewestFirst(Bucket(s.index, t'.state));
    AddCounts(s.index, t.id, t'.state, t'.createdAt, q, e);
    assert multiset(Bucket(s.index, q))[e] == Occurs(live, q, e);
    MiscountBreaks(s'.index, live', q, e);
  }

  /** Update keeps the index right exactly if it archives, or leaves an un-archived task's state and creation time. */
  lemma UpdateKeepsIndex(s: Store, t: Task, now: Time)
    requires Consistent(s) && t.id in s.db && t.version == s.db[t.id].version
    ensures var was := s.db[t.id];
      Consistent(Updated(s, t, now).0) <==>
        t.archivedAt.Some? || (was.archivedAt.None? && t.state == was.state && t.createdAt == was.createdAt)
  {
    var was, s' := s.db[t.id], Updated(s, t, now).0;
    var live, live' := LiveTasks(s.db), LiveTasks(s'.db);
    if t.archivedAt.Some? {
      assert live' == live - {t.id};
      if was.archivedAt.None? {
        RemoveMirrors(s.index, live, t.id);
      }
    } else {
      assert live' == live[t.id := Slot(t.state, t.createdAt)];
      var e := IndexEntry(t.id, t.createdAt);
      assert multiset(Bucket(s.index, t.state))[e] == Occurs(live, t.state, e);
      if was.archivedAt.None? && t.state == was.state && t.createdAt == was.createdAt {
        assert live' == live;
      } else {
        MiscountBreaks(s'.index, live', t.state, e);
      }
    }
  }

  lemma DeleteKeepsIndex(s: Store, id: Id)
    requires Consistent(s)
    ensures Consistent(Deleted(s, id))
  {
    if id in s.db {
      var live := LiveTasks(s.db);
      assert LiveTasks(s.db - {id}) == live - {id};
      if id in live {
        RemoveMirrors(s.index, live, id);
      } else {
        RemoveAbsent(s.index, live, id, s.db[id].state);
      }
    }
  }

  /** The index after a move, for a task that was live in its old state or not live at all. */
  lemma MoveMirrors(ix: Index, live: Live, id: Id, from: State, to: State, t: Time)
    requires Mirrors(ix, live) && from != to && (id in live ==> live[id] == Slot(from, t))
    ensures Mirrors(Move(ix, id, from, to, t), live[id := Slot(to, t)])
  {
    if id in live {
      RemoveMirrors(ix, live, id);
    } else {
      RemoveAbsent(ix, live, id, from);
      assert live - {id} == live;
    }
    AddMirrors(Remove(ix, id, from), live - {id}, id, to, t);
    assert (live - {id})[id := Slot(to, t)] == live[id := Slot(to, t)];
  }

  /**
   * TransitionState keeps the index right except for two uses on an archived task: un-archiving it
   * without a change of state, and changing its state without un-archiving it.
   */
  lemma TransitionKeepsIndex(s: Store, id: Id, c: Change, now: Time, max: int)
    requires Consistent(s) && id in s.db
    ensures var t := s.db[id];
      Consistent(Transitioned(s, id, c, now, max).0) <==>
        c.setArchivedAt.Some? || t.archivedAt.None? || (c.clearArchived <==> c.to != t.state)
  {
    var t := s.db[id];
    var live := LiveTasks(s.db);
    var s' := Transitioned(s, id, c, now, max).0;
    var moved := Move(s.index, id, t.state, c.to, t.createdAt);
    if t.archivedAt.None? || c.to != t.state {
      if c.to != t.state {
        MoveMirrors(s.index, live, id, t.state, c.to, t.createdAt);
      }
      var mid := live[id := Slot(c.to, t.createdAt)];
      assert t.archivedAt.None? && c.to == t.state ==> mid == live;
      assert Mirrors(moved, mid);
      TransitionAfterMove(s, id, c, now, max, mid);
    } else {
      RemoveAbsent(s.index, live, id, c.to);
      assert moved == s.index;
      if c.setArchivedAt.None? && c.clearArchived {
        var e := IndexEntry(id, t.createdAt);
        assert multiset(Bucket(s.index, c.to))[e] == Occurs(live, c.to, e);
        MiscountBreaks(s'.index, LiveTasks(s'.db), c.to, e);
      } else {
        assert LiveTasks(s'.db) == live;
      }
    }
  }

  lemma TransitionAfterMove(s: Store, id: Id, c: Change, now: Time, max: int, mid: Live)
    requires KeysMatch(s.db) && id in s.db
    requires mid == LiveTasks(s.db)[id := Slot(c.to, s.db[id].createdAt)]
    requires Mirrors(Move(s.index, id, s.db[id].state, c.to, s.db[id].createdAt), mid)
    ensures Consistent(Transitioned(s, id, c, now, max).0) <==>
      c.setArchivedAt.Some? || s.db[id].archivedAt.None? || c.clearArchived
  {
    var t := s.db[id];
    var moved := Move(s.index, id, t.state, c.to, t.createdAt);
    LiveAfterTransition(s, id, c, now, max);
    if c.setArchivedAt.Some? {
      RemoveMirrors(moved, mid, id);
      assert mid - {id} == LiveTasks(s.db) - {id};
    } else if !(t.archivedAt.None? || c.clearArchived) {
      var e := IndexEntry(id, t.createdAt);
      assert multiset(Bucket(moved, c.to))[e] == Occurs(mid, c.to, e);
      MiscountBreaks(moved, LiveTasks(s.db) - {id}, c.to, e);
    }
  }

  /** The live tasks after a transition: without this one if it ends up archived, otherwise in its new state. */
  lemma LiveAfterTransition(s: Store, id: Id, c: Change, now: Time, max: int)
    requires KeysMatch(s.db) && id in s.db
    ensures var t, s' := s.db[id], Transitioned(s, id, c, now, max).0;
      && KeysMatch(s'.db)
      && LiveTasks(s'.db) ==
           if c.setArchivedAt.None? && (t.archivedAt.None? || c.clearArchived)
           then LiveTasks(s.db)[id := Slot(c.to, t.createdAt)] else LiveTasks(s.db) - {id}
  {
  }

  /**
   * The two recording operations never touch archiving, so they keep the index right exactly on a
   * task that is not archived, or when the state stays the same.
   */
  predicate RecordsSafely(t: Task, to: State) {
    t.archivedAt.None? || to == t.state
  }

  lemma RecordKeepsIndex(s: Store, id: Id, to: State, actor: string, reason: string, now: Time, max: int)
    requires Consistent(s) && id in s.db
    ensures Consistent(StateRecorded(s, id, to, actor, reason, now, max).0) <==> RecordsSafely(s.db[id], to)
  {
    var c := Change(to, actor, reason, None, false, false, None, None);
    TransitionKeepsIndex(s, id, c, now, max);
    assert StateRecorded(s, id, to, actor, reason, now, max) == Transitioned(s, id, c, now, max);
  }

  lemma UpdateStateKeepsIndex(s: Store, id: Id, to: State, now: Time, max: int)
    requires Consistent(s) && id in s.db
    ensures Consistent(StateUpdated(s, id, to, now, max).0) <==> RecordsSafely(s.db[id], to)
  {
    RecordKeepsIndex(s, id, to, "system", "", now, max);
    UpdateStateIsLike(s, id, to, now, max);
    SameIndex(StateUpdated(s, id, to, now, max).0, StateRecorded(s, id, to, "system", "", now, max).0);
  }

  lemma UpdateStateIsLike(s: Store, id: Id, to: State, now: Time, max: int)
    requires KeysMatch(s.db) && id in s.db
    ensures var a, b := StateUpdated(s, id, to, now, max).0, StateRecorded(s, id, to, "system", "", now, max).0;
      a.index == b.index && KeysMatch(a.db) && KeysMatch(b.db) && LiveTasks(a.db) == LiveTasks(b.db)
  {
  }

  lemma SameIndex(a: Store, b: Store)
    requires a.index == b.index && KeysMatch(a.db) && KeysMatch(b.db) && LiveTasks(a.db) == LiveTasks(b.db)
    ensures Consistent(a) <==> Consistent(b)
  {
  }

  lemma ResultKeepsIndex(s: Store, id: Id, result: TaskResult, now: Time)
    requires Consistent(s)
    ensures Consistent(ResultUpdated(s, id, result, now).0)
  {
    assert LiveTasks(ResultUpdated(s, id, result, now).0.db) == LiveTasks(s.db);
  }

  /** A rebuild mirrors the stored tasks, in whatever order the keys are enumerated. */
  lemma {:induction false} RebuildMirrors(db: Db, keys: seq<Id>)
    requires KeysMatch(db) && Distinct(keys)
    ensures Mirrors(Rebuilt(db, keys), Restrict(LiveTasks(db), Elements(keys)))
  {
    var live := LiveTasks(db);
    if keys == [] {
      MirrorsEmpty();
      assert Restrict(live, {}) == map[];
    } else {
      var pre, id := keys[..|keys| - 1], keys[|keys| - 1];
      RebuildMirrors(db, pre);
      assert keys == pre + [id];
      assert id !in pre;
      RestrictGrows(live, pre, id);
      if id in live {
        AddMirrors(Rebuilt(db, pre), Restrict(live, Elements(pre)), id, db[id].state, db[id].createdAt);
      }
    }
  }

  lemma RestrictGrows(live: Live, pre: seq<Id>, id: Id)
    ensures Restrict(live, Elements(pre + [id])) ==
      if id in live then Restrict(live, Elements(pre))[id := live[id]] else Restrict(live, Elements(pre))
  {
  }

  ghost function Restrict(live: Live, ids: set<Id>): Live {
    map id | id in live && id in ids :: live[id]
  }

  /**
   * A restart is invisible to state queries: the rebuilt index has the same tasks per state as the
   * live one, and is identical to it when no two live tasks share a creation time.
   */
  lemma RestartIsInvisible(s: Store, keys: seq<Id>)
    requires Consistent(s) && Distinct(keys) && Elements(keys) == s.db.Keys
    ensures Consistent(Store(s.db, Rebuilt(s.db, keys)))
    ensures forall q :: multiset(Bucket(Rebuilt(s.db, keys), q)) == multiset(Bucket(s.index, q))
    ensures DistinctTimes(LiveTasks(s.db)) ==> Rebuilt(s.db, keys) == s.index
  {
    RebuildMirrors(s.db, keys);
    assert Restrict(LiveTasks(s.db), Elements(keys)) == LiveTasks(s.db);
    MirrorIsUnique(Rebuilt(s.db, keys), s.index, LiveTasks(s.db));
  }
}
