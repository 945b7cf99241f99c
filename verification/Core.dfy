/**
 * The task handlers of pkg/core/core.go together with the timeout checker and the archive cleaner.
 * Every method does what the function of the same meaning in Runs says.
 */
module Core {
  import opened StateMachine
  import opened Sequences
  import opened StateIndex
  import opened Tasks
  import opened Listing
  import opened TaskStores
  import opened Engine
  import opened Lives
  import opened RetryTiming
  import opened Runs
  import opened Sweeps
  import opened Outcomes
  import TimeoutHeap

  /** The entry a rebuild makes for a task, if it has a deadline. */
  function EntryOf(t: Task, now: Time): seq<HeapEntry> {
    if t.timeoutAt.None? then []
    else [HeapEntry(if t.timeoutAt.value < now then now else t.timeoutAt.value, t.id)]
  }

  function EntriesOf(tasks: seq<Task>, now: Time): seq<HeapEntry> {
    if tasks == [] then [] else EntriesOf(tasks[..|tasks| - 1], now) + EntryOf(tasks[|tasks| - 1], now)
  }

  lemma {:induction false} EntriesCount(db: Db, tasks: seq<Task>, now: Time, e: HeapEntry)
    requires KeysMatch(db) && forall t :: t in tasks ==> t.id in db && db[t.id] == t && t.archivedAt.None?
    ensures multiset(EntriesOf(tasks, now))[e] ==
      if Tracked(db, e.id) && e == EntryFor(db, e.id, now) then multiset(tasks)[db[e.id]] else 0
  {
    if tasks != [] {
      var pre, t := tasks[..|tasks| - 1], tasks[|tasks| - 1];
      assert tasks == pre + [t];
      EntriesCount(db, pre, now, e);
      assert t in tasks;
      assert multiset(EntryOf(t, now))[e] ==
        if t.id == e.id && Tracked(db, e.id) && e == EntryFor(db, e.id, now) then 1 else 0;
    }
  }

  lemma EntriesAreFresh(db: Db, f: Filter, tasks: seq<Task>, now: Time)
    requires KeysMatch(db) && IsScan(db, f, tasks) && f == ActiveTasks
    ensures multiset(EntriesOf(tasks, now)) == multiset(FreshHeap(db, now))
  {
    forall t | t in tasks ensures t.id in db && db[t.id] == t && t.archivedAt.None? {
      assert t in multiset(tasks);
    }
    forall e ensures multiset(EntriesOf(tasks, now))[e] == multiset(FreshHeap(db, now))[e] {
      EntriesCount(db, tasks, now, e);
      FreshEntries(db, now, e);
      if Tracked(db, e.id) {
        assert db[e.id] in Matching(db, f);
      }
    }
  }

  const ActiveTasks := Filter("", None, None, None, 0, 0, false)

  const AllTasks := Filter("", None, None, None, 0, 0, true)

  class Core {
    const settings: Settings
    const store: TaskStore
    const engine: StateMachineEngine

    // the timeout checker
    var heap: TimeoutHeap.Heap
    var heapStale: bool
    var ticksSinceRebuild: nat

    // the concurrency semaphore
    var taskSem: nat

    ghost var inflight: nat
    ghost var clock: Time
    ghost var lives: map<Id, Life>

    /**
     * Start-up (the task part of initTaskScheduler): open the store, archive orphans, take a slot for
     * every active task up to the limit. `keys` and `keys'` are the orders in which the database lists
     * its keys, `past` what the previous process left behind.
     */
    constructor (settings: Settings, database: Db, keys: seq<Id>, keys': seq<Id>, now: Time, ghost past: Sys)
      requires KeysMatch(database) && Distinct(keys) && Elements(keys) == database.Keys
      requires Distinct(keys') && Elements(keys') == database.Keys
      requires past.store.db == database && (forall id :: id in database ==> id in past.lives) && settings.maxConcurrent > 0
      ensures Valid() && fresh(store)
      ensures exists listed ::
        (Distinct(listed) && Elements(listed) == LiveTasks(database).Keys
         && State() == Restarted(settings, past, keys, listed, now))
    {
      this.settings := settings;
      var taskStore := new TaskStore(database, settings.maxHistory, keys);
      store := taskStore;
      engine := new StateMachineEngine(taskStore, settings.cfg);
      heap, heapStale, ticksSinceRebuild := [], true, 0;
      taskSem, inflight, clock, lives := 0, 0, now, past.lives;
      new;
      ghost var listed := RecoverOrphanedTasks(keys', now);
      FillSlots(keys');
      lives := Restarted(settings, past, keys, listed, now).lives;
    }

    method FillSlots(keys: seq<Id>)
      requires store.Valid() && store.Lists(keys) && taskSem == 0
      modifies this`taskSem
      ensures var active := |LiveTasks(store.db)|;
        taskSem == if active < settings.maxConcurrent then active else settings.maxConcurrent
    {
      var activeTasks := store.Count(ActiveTasks, keys);
      ActiveCount(store.db);
      var limit := settings.maxConcurrent;
      if activeTasks < limit {
        limit := activeTasks;
      }
      for i := 0 to limit
        invariant taskSem == i
      {
        taskSem := taskSem + 1;
      }
    }

    ghost predicate Valid()
      reads this, store
    {
      && store.Valid() && engine.store == store && engine.config == settings.cfg
      && store.maxStateHistory == settings.maxHistory
      && TimeoutHeap.IsHeap(heap)
      && (forall id :: id in store.db ==> id in lives)
    }

    ghost function State(): Sys
      reads this, store
    {
      Sys(store.Content(), multiset(heap), heapStale, ticksSinceRebuild, taskSem, inflight, clock, lives)
    }

    // ---------- slots ----------

    /** Blocks until a slot is free; here it is called when one is. */
    method AcquireSlot()
      requires Valid() && taskSem < settings.maxConcurrent
      modifies this`taskSem, this`inflight
      ensures Valid() && State() == Acquired(old(State()))
    {
      taskSem := taskSem + 1;
      inflight := inflight + 1;
    }

    method ReleaseSlot()
      requires Valid()
      modifies this`taskSem
      ensures Valid() && State() == Release(old(State()))
    {
      if taskSem > 0 {
        taskSem := taskSem - 1;
      }
    }

    // ---------- commands ----------

    /** The engine call, with the task's life recorded. */
    method Execute(cmd: Command, ts: seq<Time>, ghost retry: bool) returns (outcome: Outcome)
      requires Valid() && |ts| == 4
      modifies this`lives, store
      ensures Valid() && (State(), outcome) == Commit(settings, old(State()), cmd, ts, retry)
    {
      ghost var before := State();
      outcome := engine.HandleTransitionCommand(cmd, ts[2], ts[3]);
      if outcome == Done && Writes(before.store.db[cmd.taskId], cmd) {
        lives := lives[cmd.taskId := CommandLife(settings.cfg, before.store.db[cmd.taskId], before.lives[cmd.taskId],
                                                 cmd, ts[2], ts[3], settings.maxHistory, retry)];
      }
    }

    method HandleTransitionCommand(taskId: Id, current: State, target: State, component: string, message: string, ts: seq<Time>)
      requires Valid() && |ts| == 4
      modifies this, store
      ensures Valid()
      ensures State() ==
        CommandHandled(settings, old(State()), Command(taskId, current, target, component, message, None, None), ts)
    {
      var cmd := Command(taskId, current, target, component, message, None, None);
      if taskId == "" || current == "" || target == "" {
        clock := ts[3];
        return;
      }
      var outcome := Execute(cmd, ts, false);
      clock := ts[3];
      if outcome != Done {
        return;
      }
      if settings.cfg.IsTerminal(target) {
        ReleaseSlot();
      }
    }

    // ---------- policy matches ----------

    method CreateFromPolicy(spec: Spec, payloadBuilt: bool, ts: seq<Time>) returns (copy: Option<Task>)
      requires Valid() && |ts| == 4 && inflight > 0 && taskSem > 0
      modifies this, store
      ensures Valid()
      ensures copy.Some? <==> payloadBuilt && spec.id != ""
      ensures copy.Some? ==>
        State() == Admitted(settings, old(State()), spec, ts) && spec.id in store.db && copy.value == store.db[spec.id]
      ensures copy.None? ==> State() == CreateFailed(old(State()))
    {
      ghost var y := State();
      copy := engine.CreateTask(spec, payloadBuilt, ts[0], ts[1]);
      inflight := inflight - 1;
      if copy == None {
        taskSem := taskSem - 1;
        return;
      }
      LogCreation(spec, ts, y);
    }

    method LogCreation(spec: Spec, ts: seq<Time>, ghost y: Sys)
      requires y.inflight > 0 && |ts| == 4
      requires State() == y.(store := store.Content(), inflight := y.inflight - 1)
      requires store.Content() == TaskCreated(settings.cfg, y.store, spec, ts[0], ts[1], settings.maxHistory)
      requires store.Valid() && engine.store == store && engine.config == settings.cfg
      requires store.maxStateHistory == settings.maxHistory && TimeoutHeap.IsHeap(heap)
      requires forall id :: id in store.db ==> id == spec.id || id in lives
      modifies this`clock, this`lives
      ensures Valid() && State() == Admitted(settings, y, spec, ts)
    {
      clock := ts[3];
      lives := lives[spec.id := CreationLife(settings.cfg, spec, ts[0], ts[1], settings.maxHistory)];
    }

    method PushEntry(id: Id, deadline: Time)
      requires Valid()
      modifies this`heap
      ensures Valid() && State() == Pushed(old(State()), id, deadline)
    {
      heap := TimeoutHeap.Push(heap, HeapEntry(deadline, id));
    }

    method SetTaskTimeout(copy: Task, ts: seq<Time>)
      requires Valid() && |ts| == 4
      modifies this, store
      ensures Valid() && State() == TimeoutSet(settings, old(State()), copy, ts)
    {
      var effective := EffectiveTimeout(copy.ruleTimeout, settings.defaultTimeout);
      var deadline := ts[0] + effective;
      var outcome := store.Update(copy.(timeoutAt := Some(deadline)), ts[1]);
      clock := ts[3];
      if outcome == Done {
        lives := lives[copy.id := lives[copy.id].(log := lives[copy.id].log + [store.db[copy.id]])];
        PushEntry(copy.id, deadline);
      }
    }

    /** The whole handler, when a slot is free. */
    method HandlePolicyMatchedEvent(spec: Spec, payloadBuilt: bool, ts: seq<Time>, ts': seq<Time>)
      requires Valid() && |ts| == 4 && |ts'| == 4 && taskSem < settings.maxConcurrent
      modifies this, store
      ensures Valid()
      ensures payloadBuilt && spec.id != "" ==>
        var y := Admitted(settings, Acquired(old(State())), spec, ts);
        spec.id in y.store.db && State() == TimeoutSet(settings, y, y.store.db[spec.id], ts')
      ensures !(payloadBuilt && spec.id != "") ==> State() == old(State())
    {
      AcquireSlot();
      var copy := CreateFromPolicy(spec, payloadBuilt, ts);
      if copy == None {
        return;
      }
      SetTaskTimeout(copy.value, ts');
    }

    // ---------- timeouts ----------

    method HandleTimeoutEvent(id: Id, state: State, ts: seq<Time>)
      requires Valid() && |ts| == 4
      modifies this, store
      ensures Valid() && State() == TimeoutHandled(settings, old(State()), id, state, ts)
    {
      if id == "" || state == "" {
        return;
      }
      var got := store.Get(id);
      if got == None {
        return;
      }
      var task := got.value;
      if task.state != state {
        return;
      }
      if task.state !in settings.cfg.states {
        return;
      }
      var stateCfg := settings.cfg.states[task.state];
      if stateCfg.autoRetry && task.retryCount < stateCfg.maxRetries {
        HandleTaskRetry(task, ts);
      } else {
        HandleTaskArchive(task, ts);
      }
    }

    method HandleTaskRetry(task: Task, ts: seq<Time>)
      requires Valid() && |ts| == 4 && task.state in settings.cfg.states
      modifies this, store
      ensures Valid() && State() == Retried(settings, old(State()), task, ts)
    {
      if task.retryCount < 0 || task.stateUpdatedAt + Backoff(task.retryCount, settings.maxBackoff) > ts[0] {
        return;
      }
      var target := settings.cfg.states[task.state].retryToState;
      if target == "" {
        target := settings.cfg.initialState;
      }
      var newTimeout := ts[1] + EffectiveTimeout(task.ruleTimeout, settings.defaultTimeout);
      var cmd := Command(task.id, task.state, target, "timeout-handler", "retry after timeout",
                         Some(task.retryCount + 1), Some(newTimeout));
      assert cmd == RetryCommand(settings, task, ts) && BackoffElapsed(settings, task, ts[0]);
      var outcome := Execute(cmd, ts, true);
      if outcome != Done {
        return;
      }
      PushEntry(task.id, newTimeout);
    }

    method HandleTaskArchive(task: Task, ts: seq<Time>)
      requires Valid() && |ts| == 4
      modifies this, store
      ensures Valid() && State() == ArchivedOnTimeout(settings, old(State()), task, ts)
    {
      ghost var goal := TryTerminals(settings, State(), task, settings.cfg.terminalStates, ts);
      var targets := settings.cfg.terminalStates;
      var transitioned := false;
      var i := 0;
      while i < |targets| && !transitioned
        invariant 0 <= i <= |targets| && Valid()
        invariant !transitioned ==> TryTerminals(settings, State(), task, targets[i..], ts) == goal
        invariant transitioned ==> goal == (State(), true)
      {
        assert targets[i..][0] == targets[i] && targets[i..][1..] == targets[i + 1..];
        if settings.cfg.IsAllowed(task.state, targets[i]) {
          var outcome := Execute(Command(task.id, task.state, targets[i], "timeout-handler", "timeout", None, None), ts, false);
          transitioned := outcome == Done;
        }
        i := i + 1;
      }
      if transitioned {
        RecordResult(task.id, ts);
        ReleaseSlot();
      }
    }

    method RecordResult(id: Id, ts: seq<Time>)
      requires Valid() && |ts| == 4
      modifies this`lives, store
      ensures Valid() && State() == ResultWritten(old(State()), id, ts)
    {
      var outcome := store.UpdateResult(id, TaskResult(false, "task timed out"), ts[3]);
      if outcome == Done {
        lives := lives[id := lives[id].(log := lives[id].log + [store.db[id]])];
      }
    }

    // ---------- sweeps ----------

    method RebuildHeap(now: Time, keys: seq<Id>)
      requires Valid() && store.Lists(keys)
      modifies this`heap, this`heapStale
      ensures Valid() && !heapStale && multiset(heap) == multiset(FreshHeap(store.db, now))
    {
      var tasks := store.Scan(ActiveTasks, keys);
      var newHeap := [];
      for i := 0 to |tasks|
        invariant newHeap == EntriesOf(tasks[..i], now)
      {
        assert tasks[..i + 1][..i] == tasks[..i];
        var t := tasks[i];
        if t.timeoutAt != None {
          var deadline := t.timeoutAt.value;
          if deadline < now {
            deadline := now;
          }
          newHeap := newHeap + [HeapEntry(deadline, t.id)];
        }
      }
      assert tasks[..|tasks|] == tasks;
      EntriesAreFresh(store.db, ActiveTasks, tasks, now);
      heap := TimeoutHeap.Init(newHeap);
      heapStale := false;
    }

    method StartSweep(r: Time, now: Time, keys: seq<Id>)
      requires Valid() && store.Lists(keys)
      modifies this
      ensures Valid() && State() == SweepStarted(settings, old(State()), r, now)
    {
      ticksSinceRebuild := ticksSinceRebuild + 1;
      if heapStale || |heap| == 0 || ticksSinceRebuild >= settings.rebuildInterval {
        RebuildHeap(r, keys);
        ticksSinceRebuild := 0;
      }
      clock := now;
    }

    /** One entry off the heap, and the callback if its task is past its deadline. */
    method PopAndFire(now: Time, ts: seq<Time>) returns (e: HeapEntry, fired: bool)
      requires Valid() && |heap| > 0 && |ts| == 4
      modifies this, store
      ensures Valid() && e == old(heap[0]) && State() == Popped(settings, old(State()), e, now, ts)
      ensures fired <==> e.id in old(store.db) && old(store.db)[e.id].timeoutAt.Some? && old(store.db)[e.id].timeoutAt.value < now
      ensures forall x :: x in multiset(old(heap)) ==> e.deadline <= x.deadline
    {
      ghost var y := State();
      heap, e := TimeoutHeap.Pop(heap);
      clock := ts[3];
      assert State() == y.(heap := y.heap - multiset{e}, clock := ts[3]);
      var got := store.Get(e.id);
      if got == None {
        return e, false;
      }
      var task := got.value;
      if task.timeoutAt == None || now <= task.timeoutAt.value {
        return e, false;
      }
      assert task.id == e.id && Fires(y, e, now);
      fired := true;
      HandleTimeoutEvent(task.id, task.state, ts);
    }

    /**
     * A whole sweep. `round(k)` are the clock readings of round k. The ghost result is the sequence of
     * rounds; the sweep ends, with nothing due left, after exactly as many rounds as entries were due.
     */
    method CheckTimeouts(r: Time, now: Time, round: nat -> seq<Time>, keys: seq<Id>)
      returns (wait: int, fired: seq<Id>, ghost rounds: seq<Round>)
      requires Valid() && store.Lists(keys) && clock <= r <= now
      requires GoodClock(now, round)
      modifies this, store
      ensures Valid()
      ensures var y := SweepStarted(settings, old(State()), r, now);
        && IsSweep(settings, y, now, rounds) && State() == AfterSweep(settings, y, now, rounds)
        && fired == Fired(settings, y, now, rounds)
        && |rounds| == DueCount(y.heap, now)
      ensures DueCount(State().heap, now) == 0
      ensures IsWake(settings, State().heap, now, wait)
    {
      StartSweep(r, now, keys);
      fired, rounds := DrainDue(now, round);
      wait := NextWake(now);
    }

    /** The sweep that led here. */
    ghost predicate Sweeping(y: Sys, now: Time, rounds: seq<Round>, fired: seq<Id>)
      reads this, store
    {
      && IsSweep(settings, y, now, rounds) && State() == AfterSweep(settings, y, now, rounds)
      && fired == Fired(settings, y, now, rounds)
      && |rounds| + DueCount(State().heap, now) == DueCount(y.heap, now)
    }

    /** The pop loop of a sweep. */
    method DrainDue(now: Time, round: nat -> seq<Time>) returns (fired: seq<Id>, ghost rounds: seq<Round>)
      requires Valid() && clock == now && GoodClock(now, round)
      modifies this, store
      ensures Valid() && Sweeping(old(State()), now, rounds, fired) && DueCount(State().heap, now) == 0
    {
      ghost var y := State();
      rounds, fired := [], [];
      var k := 0;
      while |heap| > 0 && heap[0].deadline <= now
        invariant Valid() && Sweeping(y, now, rounds, fired)
        invariant now <= clock == ClockBefore(now, round, k)
        decreases DueCount(multiset(heap), now)
      {
        fired, rounds := DrainStep(now, round(k), y, rounds, fired);
        k := k + 1;
      }
      NothingDue(heap, now);
    }

    method DrainStep(now: Time, ts: seq<Time>, ghost y: Sys, ghost rounds0: seq<Round>, fired0: seq<Id>)
      returns (fired: seq<Id>, ghost rounds: seq<Round>)
      requires Valid() && |heap| > 0 && heap[0].deadline <= now <= clock && Readings(clock, ts)
      requires Sweeping(y, now, rounds0, fired0)
      modifies this, store
      ensures Valid() && Sweeping(y, now, rounds, fired) && clock == ts[3]
      ensures DueCount(multiset(heap), now) < old(DueCount(multiset(heap), now))
    {
      ghost var before := State();
      var e, hit := PopAndFire(now, ts);
      SweepExtends(settings, y, now, rounds0, before, e, ts);
      rounds := rounds0 + [Round(e, ts)];
      fired := fired0 + if hit then [e.id] else [];
    }

    method NextWake(now: Time) returns (wait: int)
      requires Valid()
      ensures IsWake(settings, State().heap, now, wait)
      ensures wait >= 100_000_000
      ensures |heap| == 0 ==> wait == settings.checkInterval || wait == 100_000_000 >= settings.checkInterval
      ensures |heap| > 0 ==> wait == heap[0].deadline - now || wait == 100_000_000 >= heap[0].deadline - now
    {
      if |heap| > 0 {
        wait := heap[0].deadline - now;
        if wait < 0 {
          wait := 0;
        }
        forall x | x in multiset(heap) ensures heap[0].deadline <= x.deadline {
          var i :| 0 <= i < |heap| && heap[i] == x;
          TimeoutHeap.TopIsSmallest(heap, i);
        }
        assert heap[0] in multiset(heap);
      } else {
        wait := settings.checkInterval;
      }
      if wait < MIN_WAKE {
        wait := MIN_WAKE;
      }
    }

    // ---------- start-up and cleaning ----------

    method RecoverOrphanedTasks(keys: seq<Id>, now: Time) returns (ghost listed: seq<Id>)
      requires store.Valid() && store.Lists(keys)
      modifies store
      ensures store.Valid() && store.db.Keys == old(store.db.Keys)
      ensures Distinct(listed) && Elements(listed) == old(LiveTasks(store.db).Keys)
      ensures store.Content() == Recovered(settings.cfg, old(store.Content()), listed, now)
    {
      var tasks := store.Scan(ActiveTasks, keys);
      ghost var before := store.Content();
      listed := Ids(tasks);
      ScanIds(before.db, ActiveTasks, tasks);
      LiveAreActive(before.db);
      for i := 0 to |tasks|
        invariant store.Valid() && store.Content() == Recovered(settings.cfg, before, listed[..i], now)
        invariant store.db.Keys == before.db.Keys
      {
        var t := tasks[i];
        ListedAt(before.db, tasks, i);
        if settings.cfg.IsTerminal(t.state) && t.archivedAt == None {
          var outcome := store.Update(t.(archivedAt := Some(now)), now);
        }
      }
      assert listed[..|tasks|] == listed;
    }

    /** ArchiveCleaner.cleanup; the cutoff is the current time less the retention period. */
    method Clean(keys: seq<Id>, cutoff: Time) returns (deleted: nat, ghost listed: seq<Id>)
      requires Valid() && store.Lists(keys)
      modifies store
      ensures store.Valid() && Distinct(listed) && Elements(listed) == old(store.db.Keys)
      ensures store.Content() == CleanedUp(old(store.Content()), listed, cutoff)
      ensures deleted == |ExpiredAmong(old(store.db), listed, cutoff)|
      ensures store.db == map id | id in old(store.db)
        && !(old(store.db)[id].archivedAt.Some? && old(store.db)[id].archivedAt.value < cutoff) :: old(store.db)[id]
      ensures deleted == |old(store.db)| - |store.db|
    {
      var tasks := store.Scan(AllTasks, keys);
      ghost var before := store.Content();
      listed := Ids(tasks);
      ScanIds(before.db, AllTasks, tasks);
      deleted := 0;
      for i := 0 to |tasks|
        invariant store.Valid() && store.Content() == CleanedUp(before, listed[..i], cutoff)
        invariant deleted == |ExpiredAmong(before.db, listed[..i], cutoff)|
      {
        var t := tasks[i];
        ListedAt(before.db, tasks, i);
        ExpiredGrows(before.db, listed, i, cutoff);
        if t.archivedAt != None && t.archivedAt.value < cutoff {
          store.Delete(t.id);
          deleted := deleted + 1;
        }
      }
      assert listed[..|tasks|] == listed;
      CleanLeaves(before, listed, cutoff);
    }
  }

  lemma CleanLeaves(s: Store, ids: seq<Id>, cutoff: Time)
    requires Elements(ids) == s.db.Keys
    ensures CleanedUp(s, ids, cutoff).db ==
      map id | id in s.db && !(s.db[id].archivedAt.Some? && s.db[id].archivedAt.value < cutoff) :: s.db[id]
    ensures |ExpiredAmong(s.db, ids, cutoff)| == |s.db| - |CleanedUp(s, ids, cutoff).db|
  {
    CleanupOutcome(s, ids, cutoff);
    assert forall id :: id in s.db ==> id in Elements(ids);
    ExpiredAreGone(s.db, CleanedUp(s, ids, cutoff).db, ids, cutoff);
  }

  lemma ExpiredAreGone(db: Db, left: Db, ids: seq<Id>, cutoff: Time)
    requires Elements(ids) == db.Keys && left.Keys <= db.Keys
    requires forall id :: id in left <==> id in db && !(id in ids && Expired(db, id, cutoff))
    ensures |ExpiredAmong(db, ids, cutoff)| == |db| - |left|
  {
    var gone := ExpiredAmong(db, ids, cutoff);
    assert db.Keys == left.Keys + gone && left.Keys !! gone;
    assert |db.Keys| == |left.Keys| + |gone|;
    assert |db| == |db.Keys| && |left| == |left.Keys|;
  }

  ghost function ExpiredAmong(db: Db, ids: seq<Id>, cutoff: Time): set<Id> {
    set id | id in ids && Expired(db, id, cutoff)
  }

  lemma ExpiredGrows(db: Db, ids: seq<Id>, i: nat, cutoff: Time)
    requires Distinct(ids) && i < |ids|
    ensures |ExpiredAmong(db, ids[..i + 1], cutoff)| ==
      |ExpiredAmong(db, ids[..i], cutoff)| + if Expired(db, ids[i], cutoff) then 1 else 0
  {
    assert ids[..i + 1] == ids[..i] + [ids[i]];
    assert ids[i] !in ids[..i];
    assert ExpiredAmong(db, ids[..i + 1], cutoff) ==
      ExpiredAmong(db, ids[..i], cutoff) + if Expired(db, ids[i], cutoff) then {ids[i]} else {};
  }

  ghost function Ids(tasks: seq<Task>): seq<Id> {
    seq(|tasks|, i requires 0 <= i < |tasks| => tasks[i].id)
  }

  /** A scan lists every matching task under its own ID, once. */
  lemma ScanIds(db: Db, f: Filter, tasks: seq<Task>)
    requires KeysMatch(db) && IsScan(db, f, tasks)
    ensures Distinct(Ids(tasks)) && Elements(Ids(tasks)) == set id | id in db && Matches(db[id], f)
    ensures forall t :: t in tasks ==> t.id in db && db[t.id] == t && Matches(t, f)
  {
    var ids := Ids(tasks);
    forall t | t in tasks ensures t.id in db && db[t.id] == t && Matches(t, f) {
      assert t in multiset(tasks);
    }
    forall i, j | 0 <= i < j < |ids| ensures ids[i] != ids[j] {
      assert tasks[i] in tasks && tasks[j] in tasks;
      if ids[i] == ids[j] {
        TwiceCounts(tasks, i, j);
      }
    }
    forall id | id in db && Matches(db[id], f) ensures id in ids {
      assert db[id] in Matching(db, f);
      assert db[id] in multiset(tasks);
      var i :| 0 <= i < |tasks| && tasks[i] == db[id];
      assert ids[i] == id;
    }
    forall id | id in ids ensures id in db && Matches(db[id], f) {
      var i :| 0 <= i < |ids| && ids[i] == id;
      assert tasks[i] in tasks;
    }
  }

  lemma {:induction false} ImageSize(db: Db, ids: set<Id>)
    requires KeysMatch(db) && ids <= db.Keys
    ensures |set id | id in ids :: db[id]| == |ids|
  {
    var image := set id | id in ids :: db[id];
    if ids != {} {
      var x :| x in ids;
      ImageSize(db, ids - {x});
      assert image == (set id | id in ids - {x} :: db[id]) + {db[x]};
    } else {
      assert image == {};
    }
  }

  lemma ActiveCount(db: Db)
    requires KeysMatch(db)
    ensures |Matching(db, ActiveTasks)| == |LiveTasks(db)|
  {
    var ids := LiveTasks(db).Keys;
    ImageSize(db, ids);
    assert Matching(db, ActiveTasks) == set id | id in ids :: db[id];
  }

  lemma ListedAt(db: Db, tasks: seq<Task>, i: nat)
    requires i < |tasks| && forall t :: t in tasks ==> t.id in db && db[t.id] == t
    ensures var ids := Ids(tasks);
      && ids[..i + 1][..i] == ids[..i] && ids[..i + 1][i] == ids[i] == tasks[i].id
      && tasks[i].id in db && db[tasks[i].id] == tasks[i]
  {
    assert tasks[i] in tasks;
  }

  lemma LiveAreActive(db: Db)
    ensures LiveTasks(db).Keys == set id | id in db && Matches(db[id], ActiveTasks)
  {
  }

  /** The last reading before round k. */
  function ClockBefore(now: Time, round: nat -> seq<Time>, k: nat): Time {
    if k == 0 || |round(k - 1)| == 0 then now else round(k - 1)[|round(k - 1)| - 1]
  }

  /** Successive rounds read the clock in order. */
  ghost predicate GoodClock(now: Time, round: nat -> seq<Time>) {
    forall k: nat :: Readings(ClockBefore(now, round, k), round(k))
  }

  /** One more round: the sweep goes on from where it is, with one due entry fewer. */
  lemma SweepExtends(st: Settings, y: Sys, now: Time, rounds: seq<Round>, z: Sys, e: HeapEntry, ts: seq<Time>)
    requires IsSweep(st, y, now, rounds) && z == AfterSweep(st, y, now, rounds)
    requires KeysMatch(z.store.db) && CanPop(z, e, now, ts)
    ensures var more := rounds + [Round(e, ts)]; var z' := Popped(st, z, e, now, ts);
      && IsSweep(st, y, now, more) && AfterSweep(st, y, now, more) == z'
      && Fired(st, y, now, more) == Fired(st, y, now, rounds) + FiredBy(z, e, now)
      && DueCount(z'.heap, now) + 1 == DueCount(z.heap, now) && z'.clock == ts[3]
  {
    var more := rounds + [Round(e, ts)];
    assert more[..|more| - 1] == rounds && more[|more| - 1] == Round(e, ts);
    PopTakesOneDue(st, z, e, now, ts);
    PopTicks(st, z, e, now, ts);
  }

  lemma NothingDue(heap: TimeoutHeap.Heap, now: Time)
    requires TimeoutHeap.IsHeap(heap) && (|heap| > 0 ==> heap[0].deadline > now)
    ensures DueCount(multiset(heap), now) == 0
  {
    forall x | x in multiset(heap) ensures x.deadline > now {
      var i :| 0 <= i < |heap| && heap[i] == x;
      TimeoutHeap.TopIsSmallest(heap, i);
    }
    DueZero(multiset(heap), now);
  }
}
