/** What holds in every reachable state of a serialized run: the index and the life of every task. */
module RunInvariants {
  import opened StateMachine
  import opened Sequences
  import opened StateIndex
  import opened Tasks
  import opened Engine
  import opened Lives
  import opened Runs
  import opened Validator
  import opened ValidatorGuarantees

  /** The index mirrors the stored tasks, and every stored task has led a proper life. */
  ghost predicate Base(st: Settings, y: Sys) {
    && Consistent(y.store)
    && forall id :: id in y.store.db ==> id in y.lives && LifeInv(st.cfg, st.maxHistory, y.store.db[id], y.lives[id])
  }

  lemma WriteKeepsBase(st: Settings, y: Sys, y': Sys, id: Id)
    requires Base(st, y) && id in y.store.db && Consistent(y'.store)
    requires id in y'.store.db && id in y'.lives
    requires y'.store.db == y.store.db[id := y'.store.db[id]] && y'.lives == y.lives[id := y'.lives[id]]
    requires LifeInv(st.cfg, st.maxHistory, y'.store.db[id], y'.lives[id])
    ensures Base(st, y')
  {
  }

  /** Dropping tasks, or touching anything but tasks and lives, is harmless as long as the index agrees. */
  lemma FewerTasksKeepBase(st: Settings, y: Sys, y': Sys)
    requires Base(st, y) && Consistent(y'.store) && y'.lives == y.lives
    requires forall id :: id in y'.store.db ==> id in y.store.db && y'.store.db[id] == y.store.db[id]
    ensures Base(st, y')
  {
  }

  /** A write through the engine is a proper step in the task's life. */
  lemma CommitKeepsBase(st: Settings, y: Sys, cmd: Command, ts: seq<Time>, retry: bool)
    requires Runnable(st.cfg) && Base(st, y) && |ts| == 4
    requires cmd.taskId in y.store.db ==> RetryFits(st.cfg, y.store.db[cmd.taskId], cmd, retry)
    ensures Base(st, Commit(st, y, cmd, ts, retry).0)
  {
    CommandKeepsIndex(st.cfg, y.store, cmd, ts[2], ts[3], st.maxHistory);
    var (y', o) := Commit(st, y, cmd, ts, retry);
    if cmd.taskId in y.store.db {
      var t := y.store.db[cmd.taskId];
      if o == Done && Writes(t, cmd) {
        CommandKeepsLife(st.cfg, t, y.lives[t.id], cmd, ts[2], ts[3], st.maxHistory, retry);
        WriteKeepsBase(st, y, y', t.id);
      }
    }
  }

  lemma TryTerminalsKeepsBase(st: Settings, y: Sys, t: Task, targets: seq<State>, ts: seq<Time>)
    requires Runnable(st.cfg) && Base(st, y) && |ts| == 4
    ensures Base(st, TryTerminals(st, y, t, targets, ts).0)
    decreases |targets|
  {
    if targets != [] {
      if st.cfg.IsAllowed(t.state, targets[0]) {
        CommitKeepsBase(st, y, ArchiveCommand(t, targets[0]), ts, false);
        TryTerminalsKeepsBase(st, Commit(st, y, ArchiveCommand(t, targets[0]), ts, false).0, t, targets[1..], ts);
      } else {
        TryTerminalsKeepsBase(st, y, t, targets[1..], ts);
      }
    }
  }

  lemma ResultKeepsBase(st: Settings, y: Sys, id: Id, ts: seq<Time>)
    requires Base(st, y) && |ts| == 4
    ensures Base(st, ResultWritten(y, id, ts))
  {
    ResultKeepsIndex(y.store, id, TaskResult(false, "task timed out"), ts[3]);
    if id in y.store.db {
      var y' := ResultWritten(y, id, ts);
      QuietWriteKeepsLife(st.cfg, st.maxHistory, y.store.db[id], y.lives[id], y'.store.db[id]);
      WriteKeepsBase(st, y, y', id);
    }
  }

  lemma TimeoutKeepsBase(st: Settings, y: Sys, id: Id, state: State, ts: seq<Time>)
    requires Runnable(st.cfg) && Base(st, y) && |ts| == 4
    ensures Base(st, TimeoutHandled(st, y, id, state, ts))
  {
    if id in y.store.db {
      var t := y.store.db[id];
      if t.state in st.cfg.states {
        if st.cfg.states[t.state].autoRetry && t.retryCount < st.cfg.states[t.state].maxRetries {
          RetryKeepsBase(st, y, t, ts);
        } else {
          ArchiveKeepsBase(st, y, t, ts);
        }
      }
    }
  }

  lemma RetryKeepsBase(st: Settings, y: Sys, t: Task, ts: seq<Time>)
    requires Runnable(st.cfg) && Base(st, y) && |ts| == 4
    requires t.id in y.store.db && y.store.db[t.id] == t && t.state in st.cfg.states
    requires t.retryCount < st.cfg.states[t.state].maxRetries
    ensures Base(st, Retried(st, y, t, ts))
  {
    if BackoffElapsed(st, t, ts[0]) {
      CommitKeepsBase(st, y, RetryCommand(st, t, ts), ts, true);
      var (mid, o) := Commit(st, y, RetryCommand(st, t, ts), ts, true);
      PushKeepsBase(st, mid, t.id, RetryDeadline(st, t, ts));
      assert Retried(st, y, t, ts) == if o == Done then Pushed(mid, t.id, RetryDeadline(st, t, ts)) else mid;
    } else {
      assert Retried(st, y, t, ts) == y;
    }
  }

  lemma PushKeepsBase(st: Settings, y: Sys, id: Id, deadline: Time)
    requires Base(st, y)
    ensures Base(st, Pushed(y, id, deadline))
  {
    FewerTasksKeepBase(st, y, Pushed(y, id, deadline));
  }

  lemma ArchiveKeepsBase(st: Settings, y: Sys, t: Task, ts: seq<Time>)
    requires Runnable(st.cfg) && Base(st, y) && |ts| == 4
    ensures Base(st, ArchivedOnTimeout(st, y, t, ts))
  {
    TryTerminalsKeepsBase(st, y, t, st.cfg.terminalStates, ts);
    var mid := TryTerminals(st, y, t, st.cfg.terminalStates, ts).0;
    ResultKeepsBase(st, mid, t.id, ts);
    FewerTasksKeepBase(st, ResultWritten(mid, t.id, ts), Release(ResultWritten(mid, t.id, ts)));
  }

  lemma CreateKeepsBase(st: Settings, y: Sys, spec: Spec, ts: seq<Time>)
    requires Runnable(st.cfg) && Base(st, y) && Enabled(st, y, Create(spec, ts))
    ensures Base(st, Admitted(st, y, spec, ts))
  {
    CreationKeepsIndex(st.cfg, y.store, spec, ts[0], ts[1], st.maxHistory);
    CreationGivesLife(st.cfg, spec, ts[0], ts[1], st.maxHistory);
    CreationWrites(st.cfg, y.store, spec, ts[0], ts[1], st.maxHistory);
  }

  /** The copy with its deadline, as it is stored. */
  function WithDeadline(st: Settings, copy: Task, ts: seq<Time>): Task
    requires |ts| == 4
  {
    Bumped(copy.(timeoutAt := Some(FirstDeadline(st, copy, ts)), updatedAt := ts[1]))
  }

  /** Setting a deadline writes the copy back and pushes the deadline, or leaves everything but the clock. */
  lemma SetTimeoutShape(st: Settings, y: Sys, copy: Task, ts: seq<Time>)
    requires |ts| == 4 && copy.id in y.lives
    ensures var y' := TimeoutSet(st, y, copy, ts);
      && y'.clock == ts[3] && y'.stale == y.stale && y'.ticks == y.ticks && y'.sem == y.sem && y'.inflight == y.inflight
      && if copy.id in y.store.db && copy.version == y.store.db[copy.id].version then
           && y'.store.db == y.store.db[copy.id := WithDeadline(st, copy, ts)]
           && y'.heap == y.heap + multiset{HeapEntry(FirstDeadline(st, copy, ts), copy.id)}
           && y'.lives == y.lives[copy.id := y.lives[copy.id].(log := y.lives[copy.id].log + [WithDeadline(st, copy, ts)])]
         else y' == y.(clock := ts[3])
  {
  }

  /** A copy whose version is current is the stored task. */
  lemma CurrentCopy(st: Settings, y: Sys, copy: Task)
    requires Base(st, y) && copy.id in y.lives && copy in y.lives[copy.id].log
    requires copy.id in y.store.db && copy.version == y.store.db[copy.id].version
    ensures copy == y.store.db[copy.id]
  {
    assert LogInv(y.store.db[copy.id], y.lives[copy.id].log);
  }

  /** A deadline is only ever put on a copy that is still current. */
  lemma SetTimeoutKeepsBase(st: Settings, y: Sys, copy: Task, ts: seq<Time>)
    requires Base(st, y) && Enabled(st, y, SetTimeout(copy, ts))
    ensures Base(st, TimeoutSet(st, y, copy, ts))
    ensures copy.id in y.store.db && TimeoutSet(st, y, copy, ts).store != y.store ==> copy == y.store.db[copy.id]
  {
    var y' := TimeoutSet(st, y, copy, ts);
    SetTimeoutShape(st, y, copy, ts);
    if copy.id in y.store.db && copy.version == y.store.db[copy.id].version {
      CurrentCopy(st, y, copy);
      UpdateKeepsIndex(y.store, copy.(timeoutAt := Some(FirstDeadline(st, copy, ts))), ts[1]);
      QuietWriteKeepsLife(st.cfg, st.maxHistory, copy, y.lives[copy.id], WithDeadline(st, copy, ts));
      WriteKeepsBase(st, y, y', copy.id);
    }
  }

  lemma {:induction false} CleanupKeepsIndex(s: Store, ids: seq<Id>, cutoff: Time)
    requires Consistent(s) && Distinct(ids)
    ensures Consistent(CleanedUp(s, ids, cutoff))
    ensures forall id :: id in CleanedUp(s, ids, cutoff).db <==> id in s.db && !(id in ids && Expired(s.db, id, cutoff))
    ensures forall id :: id in CleanedUp(s, ids, cutoff).db ==> CleanedUp(s, ids, cutoff).db[id] == s.db[id]
  {
    if ids != [] {
      var pre, id := ids[..|ids| - 1], ids[|ids| - 1];
      CleanupKeepsIndex(s, pre, cutoff);
      assert ids == pre + [id];
      DeleteKeepsIndex(CleanedUp(s, pre, cutoff), id);
    }
  }

  /**
   * Orphan recovery, on any consistent store: exactly the terminal tasks that are not archived get
   * archived, nothing else changes, and the index follows.
   */
  lemma {:induction false} RecoveryArchivesOrphans(cfg: Config, s: Store, ids: seq<Id>, now: Time)
    requires Consistent(s) && Distinct(ids)
    ensures var s' := Recovered(cfg, s, ids, now);
      && Consistent(s') && s'.db.Keys == s.db.Keys
      && forall id :: id in s.db ==>
           s'.db[id] ==
             if id in ids && s.db[id].state in cfg.terminalStates && s.db[id].archivedAt == None
             then s.db[id].(archivedAt := Some(now), updatedAt := now, version := s.db[id].version + 1) else s.db[id]
  {
    if ids != [] {
      var pre, id := ids[..|ids| - 1], ids[|ids| - 1];
      RecoveryArchivesOrphans(cfg, s, pre, now);
      assert ids == pre + [id];
      assert id !in pre;
      if Orphan(cfg, s.db, id) {
        UpdateKeepsIndex(Recovered(cfg, s, pre, now), s.db[id].(archivedAt := Some(now)), now);
      }
    }
  }

  lemma NoOrphans(st: Settings, y: Sys, id: Id)
    requires Base(st, y)
    ensures !Orphan(st.cfg, y.store.db, id)
  {
    if id in y.store.db {
      assert RulesInv(st.cfg, y.store.db[id], y.lives[id].full);
    }
  }

  lemma RestartLeavesTasks(st: Settings, y: Sys, keys: seq<Id>, listed: seq<Id>, now: Time)
    requires Consistent(y.store) && Distinct(keys) && Elements(keys) == y.store.db.Keys
    requires forall id :: !Orphan(st.cfg, y.store.db, id)
    ensures var y' := Restarted(st, y, keys, listed, now);
      Consistent(y'.store) && y'.store.db == y.store.db && y'.lives == y.lives
  {
    RestartIsInvisible(y.store, keys);
    var s0 := Store(y.store.db, Rebuilt(y.store.db, keys));
    NothingToRecover(st.cfg, s0, listed, now);
    var y' := Restarted(st, y, keys, listed, now);
    assert y'.store == s0;
    assert y'.lives == y.lives;
  }

  lemma {:induction false} NothingToRecover(cfg: Config, s: Store, ids: seq<Id>, now: Time)
    requires forall id :: !Orphan(cfg, s.db, id)
    ensures Recovered(cfg, s, ids, now) == s
  {
    if ids != [] {
      NothingToRecover(cfg, s, ids[..|ids| - 1], now);
    }
  }

  lemma RestartKeepsBase(st: Settings, y: Sys, keys: seq<Id>, listed: seq<Id>, now: Time)
    requires Base(st, y) && Enabled(st, y, Restart(keys, listed, now))
    ensures Base(st, Restarted(st, y, keys, listed, now)) && Restarted(st, y, keys, listed, now).store.db == y.store.db
  {
    forall id ensures !Orphan(st.cfg, y.store.db, id) {
      NoOrphans(st, y, id);
    }
    RestartLeavesTasks(st, y, keys, listed, now);
    FewerTasksKeepBase(st, y, Restarted(st, y, keys, listed, now));
  }

  /** A received command leaves tasks, lives and heap as they were, or as the commit left them. */
  lemma ReceiveShape(st: Settings, y: Sys, cmd: Command, ts: seq<Time>)
    requires |ts| == 4
    ensures var y', mid := CommandHandled(st, y, cmd, ts), Commit(st, y, cmd, ts, false).0;
      && y'.clock == ts[3]
      && (   (y'.store == y.store && y'.lives == y.lives && y'.heap == y.heap && y'.stale == y.stale)
          || (y'.store == mid.store && y'.lives == mid.lives && y'.heap == mid.heap && y'.stale == mid.stale))
  {
  }

  lemma ReceiveKeepsBase(st: Settings, y: Sys, cmd: Command, ts: seq<Time>)
    requires Runnable(st.cfg) && Base(st, y) && Enabled(st, y, Receive(cmd, ts))
    ensures Base(st, CommandHandled(st, y, cmd, ts))
  {
    var y', mid := CommandHandled(st, y, cmd, ts), Commit(st, y, cmd, ts, false).0;
    ReceiveShape(st, y, cmd, ts);
    CommitKeepsBase(st, y, cmd, ts, false);
    if y'.store == y.store && y'.lives == y.lives {
      FewerTasksKeepBase(st, y, y');
    } else {
      FewerTasksKeepBase(st, mid, y');
    }
  }

  lemma CleanupKeepsBase(st: Settings, y: Sys, ids: seq<Id>, cutoff: Time)
    requires Base(st, y) && Enabled(st, y, Cleanup(ids, cutoff))
    ensures Base(st, y.(store := CleanedUp(y.store, ids, cutoff)))
  {
    CleanupKeepsIndex(y.store, ids, cutoff);
    FewerTasksKeepBase(st, y, y.(store := CleanedUp(y.store, ids, cutoff)));
  }

  lemma StepKeepsBase(st: Settings, y: Sys, ev: Event)
    requires Runnable(st.cfg) && Base(st, y) && Enabled(st, y, ev)
    ensures Base(st, Apply(st, y, ev))
  {
    match ev
    case Create(spec, ts) => CreateKeepsBase(st, y, spec, ts);
    case SetTimeout(copy, ts) => SetTimeoutKeepsBase(st, y, copy, ts);
    case Receive(cmd, ts) => ReceiveKeepsBase(st, y, cmd, ts);
    case Pop(e, now, ts) => PopKeepsBase(st, y, e, now, ts);
    case Cleanup(ids, cutoff) => CleanupKeepsBase(st, y, ids, cutoff);
    case Restart(keys, listed, now) => RestartKeepsBase(st, y, keys, listed, now);
    case _ => FewerTasksKeepBase(st, y, Apply(st, y, ev));
  }

  lemma PopKeepsBase(st: Settings, y: Sys, e: HeapEntry, now: Time, ts: seq<Time>)
    requires Runnable(st.cfg) && Base(st, y) && |ts| == 4
    ensures Base(st, Popped(st, y, e, now, ts))
  {
    if Fires(y, e, now) {
      TimeoutKeepsBase(st, y.(heap := y.heap - multiset{e}, clock := ts[3]), e.id, y.store.db[e.id].state, ts);
    }
  }

  /** In every run the index and all lives stay proper. */
  lemma {:induction false} RunsKeepBase(st: Settings, evs: seq<Event>)
    requires Runnable(st.cfg) && IsRunOf(st, evs)
    ensures Base(st, StateAfter(st, evs))
    decreases |evs|
  {
    if evs == [] {
      MirrorsEmpty();
      assert LiveTasks(map[]) == map[];
    } else {
      RunsKeepBase(st, evs[..|evs| - 1]);
      StepKeepsBase(st, StateAfter(st, evs[..|evs| - 1]), evs[|evs| - 1]);
    }
  }

  // ---------- read off for a run ----------

  /** A state query over the index sees exactly the un-archived tasks of that state, each once, newest first. */
  lemma IndexIsExactInEveryRun(st: Settings, evs: seq<Event>, s: State)
    requires Runnable(st.cfg) && IsRunOf(st, evs)
    ensures var y := StateAfter(st, evs); var es := Bucket(y.store.index, s);
      && NewestFirst(es) && DistinctIds(es) && (s in y.store.index ==> es != [])
      && forall id :: Lists(es, id) <==>
           id in y.store.db && y.store.db[id].state == s && y.store.db[id].archivedAt.None?
  {
    RunsKeepBase(st, evs);
    var y := StateAfter(st, evs);
    BucketIsExact(y.store.index, LiveTasks(y.store.db), s);
  }

  /** Every stored task moves through its states a bounded number of times before it ends. */
  lemma TasksEndInEveryRun(st: Settings, evs: seq<Event>, id: Id, n: nat)
    requires Accepts(st.cfg) && NoBlanks(st.cfg) && TerminalsApart(st.cfg) && !st.cfg.IsTerminal(st.cfg.initialState)
    requires IsRunOf(st, evs) && id in StateAfter(st, evs).store.db
    ensures id in StateAfter(st, evs).lives
    ensures var full := StateAfter(st, evs).lives[id].full;
      0 < n <= |full| && (forall i :: 0 <= i < n - 1 ==> !st.cfg.IsTerminal(full[i].to)) ==> Moves(full, n) < |st.cfg.states|
  {
    RunsKeepBase(st, evs);
    var y := StateAfter(st, evs);
    var full := y.lives[id].full;
    assert LifeInv(st.cfg, st.maxHistory, y.store.db[id], y.lives[id]);
    if 0 < n <= |full| && (forall i :: 0 <= i < n - 1 ==> !st.cfg.IsTerminal(full[i].to)) {
      LivesAreBounded(st.cfg, y.store.db[id], full, n);
    }
  }

  /**
   * The story of every stored task, in every run: the kept history is the tail of the full one, in
   * which records chain, attempts count runs of equal targets and only allowed transitions or
   * same-state retry updates follow the creation; the task is archived exactly in terminal states;
   * its retry count is the number of committed timeout retries, within some state's limit, and has
   * never gone down.
   */
  lemma LifeInEveryRun(st: Settings, evs: seq<Event>, id: Id, i: nat, j: nat)
    requires Runnable(st.cfg) && IsRunOf(st, evs) && id in StateAfter(st, evs).store.db
    ensures id in StateAfter(st, evs).lives
    ensures var t, life := StateAfter(st, evs).store.db[id], StateAfter(st, evs).lives[id];
      && HistoryInv(t, life.full, st.maxHistory) && RulesInv(st.cfg, t, life.full) && RetryInv(st.cfg, t, life.retries)
      && (i <= j < |life.log| ==> life.log[i].retryCount <= life.log[j].retryCount)
  {
    RunsKeepBase(st, evs);
    var y := StateAfter(st, evs);
    assert LifeInv(st.cfg, st.maxHistory, y.store.db[id], y.lives[id]);
    if i <= j < |y.lives[id].log| {
      RetriesNeverDrop(y.store.db[id], y.lives[id].log, i, j);
    }
  }

  /** In every run a copy of a task can be written back exactly while it is the latest stored version. */
  lemma StaleCopiesAreRefused(st: Settings, evs: seq<Event>, id: Id, k: nat, edited: Task, now: Time)
    requires Runnable(st.cfg) && IsRunOf(st, evs) && id in StateAfter(st, evs).store.db
    requires id in StateAfter(st, evs).lives && k < |StateAfter(st, evs).lives[id].log|
    requires edited.id == id && edited.version == StateAfter(st, evs).lives[id].log[k].version
    ensures var y := StateAfter(st, evs);
      Updated(y.store, edited, now).1 == Done <==> k == |y.lives[id].log| - 1
  {
    RunsKeepBase(st, evs);
    var y := StateAfter(st, evs);
    assert LifeInv(st.cfg, st.maxHistory, y.store.db[id], y.lives[id]);
    OnlyFreshCopiesAreAccepted(y.store, y.store.db[id], y.lives[id].log, k, edited, now);
  }
}
