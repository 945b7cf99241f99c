/** The concurrency slots of pkg/core/core.go: none leaks, and exactly when they match the active tasks. */
module Slots {
  import opened StateMachine
  import opened Sequences
  import opened StateIndex
  import opened Tasks
  import opened Engine
  import opened Lives
  import opened Runs
  import opened RunInvariants

  function Active(y: Sys): nat {
    |LiveTasks(y.store.db)|
  }

  function LiveBit(db: Db, id: Id): nat {
    if id in db && db[id].archivedAt.None? then 1 else 0
  }

  /** A timeout in `s` can retry the task straight into a terminal state. */
  predicate LeakyRetry(cfg: Config, s: State) {
    && s in cfg.states && !cfg.IsTerminal(s) && cfg.states[s].autoRetry && cfg.states[s].maxRetries > 0
    && cfg.IsTerminal(cfg.RetryTarget(s)) && cfg.IsAllowed(s, cfg.RetryTarget(s))
  }

  /** No state a task can get into has such a retry. */
  ghost predicate RetriesStayOpen(cfg: Config) {
    forall s :: Reached(cfg, s) ==> !LeakyRetry(cfg, s)
  }

  /** No transition out of a terminal state is allowed. */
  predicate TerminalsClosed(cfg: Config) {
    forall t :: t in cfg.transitions && t.allowed ==> !cfg.IsTerminal(t.from)
  }

  // ---------- how the number of active tasks changes ----------

  lemma WithoutOne(s: set<Id>, x: Id)
    ensures |s - {x}| == |s| - if x in s then 1 else 0
  {
    if x !in s {
      assert s - {x} == s;
    }
  }

  lemma SameElsewhere(db: Db, id: Id, t: Task)
    ensures LiveTasks(db).Keys - {id} == LiveTasks(db[id := t]).Keys - {id}
  {
  }

  lemma ActiveAfterWrite(db: Db, id: Id, t: Task)
    ensures |LiveTasks(db[id := t])| == |LiveTasks(db)| - LiveBit(db, id) + LiveBit(db[id := t], id)
  {
    var a, b := LiveTasks(db), LiveTasks(db[id := t]);
    SameElsewhere(db, id, t);
    WithoutOne(a.Keys, id);
    WithoutOne(b.Keys, id);
    assert |a| == |a.Keys| && |b| == |b.Keys|;
  }

  lemma AfterIsLive(cfg: Config, t: Task, cmd: Command, now: Time, stamp: Time, max: int)
    ensures After(cfg, t, cmd, now, stamp, max).archivedAt.None? <==>
      if t.state == cmd.target then t.archivedAt.None? else !cfg.IsTerminal(cmd.target)
  {
  }

  /** A commit touches one task; a committed change of state makes it live exactly if the target is not terminal. */
  lemma CommitActive(st: Settings, y: Sys, cmd: Command, ts: seq<Time>, retry: bool)
    requires Base(st, y) && |ts| == 4
    ensures var (y', o) := Commit(st, y, cmd, ts, retry); var id := cmd.taskId;
      && y'.sem == y.sem && y'.inflight == y.inflight && y'.heap == y.heap
      && (o == Done ==> id in y.store.db)
      && Active(y') == Active(y) - LiveBit(y.store.db, id) + LiveBit(y'.store.db, id)
      && LiveBit(y'.store.db, id) ==
           if o == Done && y.store.db[id].state != cmd.target then (if st.cfg.IsTerminal(cmd.target) then 0 else 1)
           else LiveBit(y.store.db, id)
  {
    CommitShape(st, y, cmd, ts, retry);
    var id := cmd.taskId;
    if id in y.store.db {
      AfterIsLive(st.cfg, y.store.db[id], cmd, ts[2], ts[3], st.maxHistory);
      ActiveAfterWrite(y.store.db, id, After(st.cfg, y.store.db[id], cmd, ts[2], ts[3], st.maxHistory));
    }
  }

  /** What a commit writes. */
  lemma CommitShape(st: Settings, y: Sys, cmd: Command, ts: seq<Time>, retry: bool)
    requires KeysMatch(y.store.db) && |ts| == 4
    ensures var (y', o) := Commit(st, y, cmd, ts, retry); var id := cmd.taskId;
      && y'.sem == y.sem && y'.inflight == y.inflight && y'.heap == y.heap
      && (o == Done ==> id in y.store.db)
      && y'.store.db ==
           if o == Done && Writes(y.store.db[id], cmd)
           then y.store.db[id := After(st.cfg, y.store.db[id], cmd, ts[2], ts[3], st.maxHistory)]
           else y.store.db
  {
  }

  /** The loop over terminal states ends in at most one change, into a terminal state that is allowed. */
  lemma {:induction false} TryTerminalsActive(st: Settings, y: Sys, t: Task, targets: seq<State>, ts: seq<Time>)
    requires Base(st, y) && |ts| == 4 && t.id in y.store.db && y.store.db[t.id] == t
    requires forall x :: x in targets ==> st.cfg.IsTerminal(x)
    ensures var (y', moved) := TryTerminals(st, y, t, targets, ts);
      && (!moved ==> y' == y)
      && (moved ==> Archives(st, y, y', t))
    decreases |targets|
  {
    if targets != [] {
      assert targets[0] in targets;
      if st.cfg.IsAllowed(t.state, targets[0]) {
        ArchiveCommitActive(st, y, t, targets[0], ts);
      } else {
        TryTerminalsActive(st, y, t, targets[1..], ts);
      }
    }
  }

  /** The task was taken into a terminal state along an allowed transition, or was in one and allowed to repeat it. */
  ghost predicate Archives(st: Settings, y: Sys, y': Sys, t: Task) {
    && y'.sem == y.sem && y'.inflight == y.inflight && y'.heap == y.heap
    && (exists x :: st.cfg.IsTerminal(x) && st.cfg.IsAllowed(t.state, x))
    && (!st.cfg.IsTerminal(t.state) ==> Active(y') == Active(y) - LiveBit(y.store.db, t.id))
    && Active(y') <= Active(y) <= Active(y') + 1
  }

  lemma ArchiveCommitActive(st: Settings, y: Sys, t: Task, x: State, ts: seq<Time>)
    requires Base(st, y) && |ts| == 4 && t.id in y.store.db && y.store.db[t.id] == t
    requires st.cfg.IsTerminal(x) && st.cfg.IsAllowed(t.state, x)
    ensures var (y', o) := Commit(st, y, ArchiveCommand(t, x), ts, false);
      o == Done && Archives(st, y, y', t)
  {
    CommitActive(st, y, ArchiveCommand(t, x), ts, false);
  }

  lemma ResultActive(y: Sys, id: Id, ts: seq<Time>)
    requires |ts| == 4 && KeysMatch(y.store.db)
    ensures var y' := ResultWritten(y, id, ts);
      y'.sem == y.sem && y'.inflight == y.inflight && y'.heap == y.heap && LiveTasks(y'.store.db) == LiveTasks(y.store.db)
  {
  }

  lemma CleanupActive(y: Sys, ids: seq<Id>, cutoff: Time)
    requires Consistent(y.store) && Distinct(ids)
    ensures LiveTasks(CleanedUp(y.store, ids, cutoff).db) == LiveTasks(y.store.db)
  {
    CleanupKeepsIndex(y.store, ids, cutoff);
  }

  lemma CreateActive(st: Settings, y: Sys, spec: Spec, ts: seq<Time>)
    requires y.inflight > 0 && spec.id != "" && spec.id !in y.store.db && |ts| == 4
    ensures Active(Admitted(st, y, spec, ts)) == Active(y) + 1
  {
    var t := CreatedTask(st.cfg, spec, ts[0], ts[1], st.maxHistory);
    CreationWrites(st.cfg, y.store, spec, ts[0], ts[1], st.maxHistory);
    ActiveAfterWrite(y.store.db, spec.id, t);
  }

  lemma SetTimeoutActive(st: Settings, y: Sys, copy: Task, ts: seq<Time>)
    requires Base(st, y) && Enabled(st, y, SetTimeout(copy, ts))
    ensures var y' := TimeoutSet(st, y, copy, ts);
      y'.sem == y.sem && y'.inflight == y.inflight && Active(y') == Active(y)
  {
    SetTimeoutShape(st, y, copy, ts);
    if copy.id in y.store.db && copy.version == y.store.db[copy.id].version {
      CurrentCopy(st, y, copy);
      ActiveAfterWrite(y.store.db, copy.id, WithDeadline(st, copy, ts));
    }
  }

  // ---------- one step ----------

  /**
   * Either no slot is given back and no task stops being active, or one slot is given back and at
   * most one task stops being active; when `exact`, the two numbers move together.
   */
  predicate KeepsSlots(y: Sys, y': Sys, exact: bool) {
    && y'.inflight == y.inflight
    && (|| (y'.sem == y.sem && Active(y') >= Active(y) && (exact ==> Active(y') == Active(y)))
        || (y'.sem == Release(y).sem && Active(y') + 1 >= Active(y) && (exact ==> Active(y') + 1 == Active(y))))
  }

  lemma FromTerminalDenied(cfg: Config, s: State, x: State)
    requires TerminalsClosed(cfg) && cfg.IsTerminal(s)
    ensures !cfg.IsAllowed(s, x)
  {
  }

  /** Archived exactly in terminal states, for every stored task of a run. */
  lemma OpenIsLive(st: Settings, y: Sys, id: Id)
    requires Base(st, y) && id in y.store.db
    ensures LiveBit(y.store.db, id) == if st.cfg.IsTerminal(y.store.db[id].state) then 0 else 1
  {
    assert LifeInv(st.cfg, st.maxHistory, y.store.db[id], y.lives[id]);
  }

  lemma RetryKeepsSlots(st: Settings, y: Sys, id: Id, ts: seq<Time>)
    requires Base(st, y) && |ts| == 4 && id in y.store.db && y.store.db[id].state in st.cfg.states
    requires var s := y.store.db[id].state; var x := st.cfg.RetryTarget(s);
      !(st.cfg.IsTerminal(x) && !st.cfg.IsTerminal(s) && st.cfg.IsAllowed(s, x))
    ensures KeepsSlots(y, Retried(st, y, y.store.db[id], ts), TerminalsClosed(st.cfg))
  {
    var t := y.store.db[id];
    RetryCommitActive(st, y, id, RetryCommand(st, t, ts), ts);
    var mid := Commit(st, y, RetryCommand(st, t, ts), ts, true).0;
    PushTail(y, mid, id, RetryDeadline(st, t, ts), TerminalsClosed(st.cfg));
  }

  /** A commit that does not lead from a non-terminal into a terminal state takes no task out of the active ones. */
  lemma RetryCommitActive(st: Settings, y: Sys, id: Id, cmd: Command, ts: seq<Time>)
    requires Base(st, y) && |ts| == 4 && id in y.store.db && cmd.taskId == id
    requires var s := y.store.db[id].state;
      !(st.cfg.IsTerminal(cmd.target) && !st.cfg.IsTerminal(s) && st.cfg.IsAllowed(s, cmd.target))
    ensures var mid := Commit(st, y, cmd, ts, true).0;
      && mid.sem == y.sem && mid.inflight == y.inflight
      && Active(mid) >= Active(y) && (TerminalsClosed(st.cfg) ==> Active(mid) == Active(y))
  {
    var s := y.store.db[id].state;
    CommitActive(st, y, cmd, ts, true);
    OpenIsLive(st, y, id);
    if s != cmd.target && !st.cfg.IsAllowed(s, cmd.target) {
      DeniedCommits(st, y, cmd, ts, true);
    } else if TerminalsClosed(st.cfg) && st.cfg.IsTerminal(s) {
      FromTerminalDenied(st.cfg, s, cmd.target);
    }
  }

  lemma DeniedCommits(st: Settings, y: Sys, cmd: Command, ts: seq<Time>, retry: bool)
    requires |ts| == 4 && cmd.taskId in y.store.db && y.store.db[cmd.taskId].state != cmd.target
    requires !st.cfg.IsAllowed(y.store.db[cmd.taskId].state, cmd.target)
    ensures Commit(st, y, cmd, ts, retry).1 != Done
  {
  }

  /**
   * Where the slot goes: handleTaskRetry never gives one back. Once slots and active tasks match, a
   * retry that is carried out leaves a slot without a task exactly if it leads into a terminal state.
   */
  lemma RetryLeaksExactlyIntoTerminal(st: Settings, y: Sys, id: Id, ts: seq<Time>)
    requires Base(st, y) && |ts| == 4 && id in y.store.db && y.sem == Active(y) + y.inflight
    requires var t := y.store.db[id];
      && t.state in st.cfg.states && !st.cfg.IsTerminal(t.state) && BackoffElapsed(st, t, ts[0])
      && st.cfg.RetryTarget(t.state) != t.state && st.cfg.IsAllowed(t.state, st.cfg.RetryTarget(t.state))
    ensures SlotsBound(Retried(st, y, y.store.db[id], ts)) <==>
      !st.cfg.IsTerminal(st.cfg.RetryTarget(y.store.db[id].state))
  {
    var t := y.store.db[id];
    CommitActive(st, y, RetryCommand(st, t, ts), ts, true);
    OpenIsLive(st, y, id);
    assert Commit(st, y, RetryCommand(st, t, ts), ts, true).1 == Done;
  }

  lemma PushTail(y: Sys, mid: Sys, id: Id, deadline: Time, exact: bool)
    requires mid.sem == y.sem && mid.inflight == y.inflight
    requires Active(mid) >= Active(y) && (exact ==> Active(mid) == Active(y))
    ensures KeepsSlots(y, y, exact) && KeepsSlots(y, mid, exact) && KeepsSlots(y, Pushed(mid, id, deadline), exact)
  {
  }

  lemma ArchiveTail(y: Sys, mid: Sys, id: Id, ts: seq<Time>, exact: bool)
    requires |ts| == 4 && KeysMatch(mid.store.db) && mid.sem == y.sem && mid.inflight == y.inflight
    requires Active(mid) + 1 >= Active(y) && (exact ==> Active(mid) + 1 == Active(y))
    ensures KeepsSlots(y, Release(ResultWritten(mid, id, ts)), exact)
  {
    ResultActive(mid, id, ts);
  }

  lemma ArchiveKeepsSlots(st: Settings, y: Sys, id: Id, ts: seq<Time>)
    requires Base(st, y) && |ts| == 4 && id in y.store.db
    ensures KeepsSlots(y, ArchivedOnTimeout(st, y, y.store.db[id], ts), TerminalsClosed(st.cfg))
  {
    var t := y.store.db[id];
    TryTerminalsActive(st, y, t, st.cfg.terminalStates, ts);
    var (mid, moved) := TryTerminals(st, y, t, st.cfg.terminalStates, ts);
    if TerminalsClosed(st.cfg) && st.cfg.IsTerminal(t.state) {
      forall x ensures !st.cfg.IsAllowed(t.state, x) {
        FromTerminalDenied(st.cfg, t.state, x);
      }
    } else if moved {
      TryTerminalsKeys(st, y, t, st.cfg.terminalStates, ts);
      OpenIsLive(st, y, id);
      ArchiveTail(y, mid, id, ts, TerminalsClosed(st.cfg));
    }
  }

  lemma {:induction false} TryTerminalsKeys(st: Settings, y: Sys, t: Task, targets: seq<State>, ts: seq<Time>)
    requires KeysMatch(y.store.db) && |ts| == 4
    ensures KeysMatch(TryTerminals(st, y, t, targets, ts).0.store.db)
    decreases |targets|
  {
    if targets != [] {
      if st.cfg.IsAllowed(t.state, targets[0]) {
        TryTerminalsKeys(st, Commit(st, y, ArchiveCommand(t, targets[0]), ts, false).0, t, targets[1..], ts);
      } else {
        TryTerminalsKeys(st, y, t, targets[1..], ts);
      }
    }
  }

  /** The timeout handler keeps the slots right unless it can retry this task into a terminal state. */
  lemma TimeoutKeepsSlots(st: Settings, y: Sys, id: Id, state: State, ts: seq<Time>)
    requires Base(st, y) && |ts| == 4 && (id in y.store.db ==> !LeakyRetry(st.cfg, y.store.db[id].state))
    ensures KeepsSlots(y, TimeoutHandled(st, y, id, state, ts), TerminalsClosed(st.cfg))
  {
    if id in y.store.db && y.store.db[id].state in st.cfg.states {
      var t := y.store.db[id];
      if st.cfg.states[t.state].autoRetry && t.retryCount < st.cfg.states[t.state].maxRetries {
        RetryCountIsNat(st, y, id);
        RetryKeepsSlots(st, y, id, ts);
      } else {
        ArchiveKeepsSlots(st, y, id, ts);
      }
    }
  }

  lemma RetryCountIsNat(st: Settings, y: Sys, id: Id)
    requires Base(st, y) && id in y.store.db
    ensures y.store.db[id].retryCount >= 0
  {
    assert RetryInv(st.cfg, y.store.db[id], y.lives[id].retries);
  }

  lemma PopKeepsSlots(st: Settings, y: Sys, e: HeapEntry, now: Time, ts: seq<Time>)
    requires Base(st, y) && |ts| == 4 && (e.id in y.store.db ==> !LeakyRetry(st.cfg, y.store.db[e.id].state))
    ensures KeepsSlots(y, Popped(st, y, e, now, ts), TerminalsClosed(st.cfg))
  {
    var z := y.(heap := y.heap - multiset{e}, clock := ts[3]);
    FewerTasksKeepBase(st, y, z);
    if Fires(y, e, now) {
      TimeoutKeepsSlots(st, z, e.id, y.store.db[e.id].state, ts);
      PopTail(y, z, TimeoutHandled(st, z, e.id, y.store.db[e.id].state, ts), TerminalsClosed(st.cfg));
    }
  }

  /** Taking an entry off the heap changes neither slots nor tasks. */
  lemma PopTail(y: Sys, z: Sys, y': Sys, exact: bool)
    requires z.store == y.store && z.sem == y.sem && z.inflight == y.inflight && KeepsSlots(z, y', exact)
    ensures KeepsSlots(y, y', exact)
  {
  }

  /** A command whose terminal target the task has already reached. */
  predicate Repeats(cfg: Config, y: Sys, cmd: Command) {
    && cmd.taskId != "" && cmd.current != "" && cmd.target != ""
    && cmd.taskId in y.store.db && y.store.db[cmd.taskId].state == cmd.target && cfg.IsTerminal(cmd.target)
  }

  /** All a repeated command does is give back a slot. */
  lemma RepeatOnlyReleases(st: Settings, y: Sys, cmd: Command, ts: seq<Time>)
    requires |ts| == 4 && Repeats(st.cfg, y, cmd) && cmd.setRetryCount.None?
    ensures CommandHandled(st, y, cmd, ts) == Release(y).(clock := ts[3])
  {
  }

  /** What a commit of a received command means for the slots. */
  lemma CommitKeepsSlots(st: Settings, y: Sys, cmd: Command, ts: seq<Time>)
    requires Base(st, y) && |ts| == 4
    ensures var (y', o) := Commit(st, y, cmd, ts, false);
      && y'.inflight == y.inflight && y'.sem == y.sem
      && (if o == Done && st.cfg.IsTerminal(cmd.target) then
            && cmd.taskId in y.store.db
            && Active(y') <= Active(y) <= Active(y') + 1
            && (TerminalsClosed(st.cfg) && y.store.db[cmd.taskId].state != cmd.target ==> Active(y') + 1 == Active(y))
          else Active(y') >= Active(y) && (TerminalsClosed(st.cfg) ==> Active(y') == Active(y)))
  {
    CommitActive(st, y, cmd, ts, false);
    if cmd.taskId in y.store.db {
      var t := y.store.db[cmd.taskId];
      OpenIsLive(st, y, cmd.taskId);
      if t.state != cmd.target && !st.cfg.IsAllowed(t.state, cmd.target) {
        DeniedCommits(st, y, cmd, ts, false);
      } else if TerminalsClosed(st.cfg) && st.cfg.IsTerminal(t.state) {
        FromTerminalDenied(st.cfg, t.state, cmd.target);
      }
    }
  }

  lemma ReceiveKeepsSlots(st: Settings, y: Sys, cmd: Command, ts: seq<Time>)
    requires Base(st, y) && |ts| == 4
    ensures KeepsSlots(y, CommandHandled(st, y, cmd, ts), TerminalsClosed(st.cfg) && !Repeats(st.cfg, y, cmd))
  {
    if cmd.taskId != "" && cmd.current != "" && cmd.target != "" {
      CommitKeepsSlots(st, y, cmd, ts);
      var (mid, o) := Commit(st, y, cmd, ts, false);
      ReleaseTail(y, mid, o == Done && st.cfg.IsTerminal(cmd.target), ts[3], TerminalsClosed(st.cfg) && !Repeats(st.cfg, y, cmd));
    }
  }

  lemma ReleaseTail(y: Sys, mid: Sys, release: bool, clock: Time, exact: bool)
    requires mid.sem == y.sem && mid.inflight == y.inflight
    requires if release then Active(mid) + 1 >= Active(y) && (exact ==> Active(mid) + 1 == Active(y))
             else Active(mid) >= Active(y) && (exact ==> Active(mid) == Active(y))
    ensures KeepsSlots(y, (if release then Release(mid) else mid).(clock := clock), exact)
  {
  }

  // ---------- no slot leaks ----------

  /** Every slot taken belongs to an un-archived task or to a creation in progress. */
  predicate SlotsBound(y: Sys) {
    y.sem <= Active(y) + y.inflight
  }

  /** Slots taken, and tasks active or being created, are equally many, and within the limit. */
  predicate Balanced(st: Settings, y: Sys) {
    y.sem == Active(y) + y.inflight <= st.maxConcurrent
  }

  lemma KeepsBoth(st: Settings, y: Sys, y': Sys, exact: bool)
    requires KeepsSlots(y, y', exact)
    ensures SlotsBound(y) ==> SlotsBound(y')
    ensures exact && Balanced(st, y) ==> Balanced(st, y')
  {
  }

  ghost predicate NoLeakyTask(st: Settings, y: Sys) {
    forall id :: id in y.store.db ==> !LeakyRetry(st.cfg, y.store.db[id].state)
  }

  /** Every event keeps the bound, and those other than a repeated command keep the balance. */
  lemma StepKeepsSlots(st: Settings, y: Sys, ev: Event)
    requires Runnable(st.cfg) && Base(st, y) && NoLeakyTask(st, y) && Enabled(st, y, ev)
    ensures SlotsBound(y) ==> SlotsBound(Apply(st, y, ev))
    ensures TerminalsClosed(st.cfg) && Balanced(st, y) && !(ev.Receive? && Repeats(st.cfg, y, ev.cmd)) ==>
      Balanced(st, Apply(st, y, ev))
  {
    match ev
    case Receive(cmd, ts) =>
      ReceiveKeepsSlots(st, y, cmd, ts);
      KeepsBoth(st, y, CommandHandled(st, y, cmd, ts), TerminalsClosed(st.cfg) && !Repeats(st.cfg, y, cmd));
    case Pop(e, now, ts) =>
      PopKeepsSlots(st, y, e, now, ts);
      KeepsBoth(st, y, Popped(st, y, e, now, ts), TerminalsClosed(st.cfg));
    case _ => OtherStepKeepsSlots(st, y, ev);
  }

  /** The events that neither carry out a command nor time a task out. */
  lemma OtherStepKeepsSlots(st: Settings, y: Sys, ev: Event)
    requires Base(st, y) && Enabled(st, y, ev) && !ev.Receive? && !ev.Pop?
    ensures SlotsBound(y) ==> SlotsBound(Apply(st, y, ev))
    ensures Balanced(st, y) ==> Balanced(st, Apply(st, y, ev))
  {
    match ev
    case Create(spec, ts) => CreateActive(st, y, spec, ts);
    case SetTimeout(copy, ts) => SetTimeoutActive(st, y, copy, ts);
    case Cleanup(ids, cutoff) => CleanupActive(y, ids, cutoff);
    case Restart(keys, listed, now) => RestartBalances(st, y, keys, listed, now);
    case _ =>
  }

  lemma RunHasNoLeakyTask(st: Settings, evs: seq<Event>)
    requires Runnable(st.cfg) && RetriesStayOpen(st.cfg) && IsRunOf(st, evs)
    ensures Base(st, StateAfter(st, evs)) && NoLeakyTask(st, StateAfter(st, evs))
  {
    RunsKeepBase(st, evs);
    var y := StateAfter(st, evs);
    forall id | id in y.store.db ensures !LeakyRetry(st.cfg, y.store.db[id].state) {
      StateIsReached(st.cfg, st.maxHistory, y.store.db[id], y.lives[id]);
    }
  }

  /** In every run the slots taken never exceed the un-archived tasks and the creations in progress. */
  lemma {:induction false} SlotsNeverLeak(st: Settings, evs: seq<Event>)
    requires Runnable(st.cfg) && RetriesStayOpen(st.cfg) && IsRunOf(st, evs)
    ensures SlotsBound(StateAfter(st, evs))
    decreases |evs|
  {
    if evs != [] {
      var pre := evs[..|evs| - 1];
      SlotsNeverLeak(st, pre);
      RunHasNoLeakyTask(st, pre);
      StepKeepsSlots(st, StateAfter(st, pre), evs[|evs| - 1]);
    }
  }

  // ---------- when slots and active tasks match ----------

  /** Start-up gives every active task its slot exactly if they fit the limit, whatever happened before. */
  lemma RestartBalances(st: Settings, y: Sys, keys: seq<Id>, listed: seq<Id>, now: Time)
    requires Base(st, y) && Enabled(st, y, Restart(keys, listed, now))
    ensures var y' := Restarted(st, y, keys, listed, now);
      Active(y') == Active(y) && SlotsBound(y') && (Balanced(st, y') <==> Active(y) <= st.maxConcurrent)
  {
    RestartKeepsBase(st, y, keys, listed, now);
  }

  /**
   * The first n events are none, or end with a start-up whose active tasks fit the limit; no command
   * after them repeats a terminal target that was already reached.
   */
  ghost predicate CleanSince(st: Settings, evs: seq<Event>, n: nat)
    requires IsRunOf(st, evs) && n <= |evs|
    decreases |evs|
  {
    if |evs| == n then n == 0 || (evs[n - 1].Restart? && Active(StateAfter(st, evs)) <= st.maxConcurrent)
    else
      var pre, ev := evs[..|evs| - 1], evs[|evs| - 1];
      CleanSince(st, pre, n) && (ev.Receive? ==> !Repeats(st.cfg, StateAfter(st, pre), ev.cmd))
  }

  /**
   * If terminal states are closed, then from any start-up whose active tasks fit the limit, and as
   * long as no later command repeats a terminal target, slots and active tasks match, so the
   * concurrency limit is never exceeded. What happened before the start-up does not matter.
   */
  lemma {:induction false} SlotsMatchActiveTasks(st: Settings, evs: seq<Event>, n: nat)
    requires Runnable(st.cfg) && RetriesStayOpen(st.cfg) && TerminalsClosed(st.cfg)
    requires IsRunOf(st, evs) && n <= |evs| && CleanSince(st, evs, n)
    ensures Balanced(st, StateAfter(st, evs))
    decreases |evs|
  {
    if evs == [] {
      assert LiveTasks(map[]) == map[];
    } else {
      var pre, ev := evs[..|evs| - 1], evs[|evs| - 1];
      var y := StateAfter(st, pre);
      RunHasNoLeakyTask(st, pre);
      if |evs| == n {
        RestartBalances(st, y, ev.keys, ev.listed, ev.now);
      } else {
        SlotsMatchActiveTasks(st, pre, n);
        StepKeepsSlots(st, y, ev);
      }
    }
  }

  /**
   * A repeated command is the only way out of balance: an event takes a balanced state out of it
   * exactly if it is a command that repeats a reached terminal target while a slot is taken.
   */
  lemma RepeatBreaksBalance(st: Settings, y: Sys, ev: Event)
    requires Runnable(st.cfg) && TerminalsClosed(st.cfg) && Base(st, y) && NoLeakyTask(st, y)
    requires Balanced(st, y) && Enabled(st, y, ev)
    ensures Balanced(st, Apply(st, y, ev)) <==> !(ev.Receive? && Repeats(st.cfg, y, ev.cmd) && y.sem > 0)
  {
    if ev.Receive? && Repeats(st.cfg, y, ev.cmd) {
      RepeatOnlyReleases(st, y, ev.cmd, ev.ts);
    } else {
      StepKeepsSlots(st, y, ev);
    }
  }
}
