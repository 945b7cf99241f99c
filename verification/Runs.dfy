/**
 * Serialized runs of the task side of the core (pkg/core/core.go, pkg/task/timeout_checker.go,
 * pkg/task/archive.go): the whole state as one value and every handler as a function on it.
 *
 * A handler takes four clock readings, in the order in which it reads the clock; where it reads
 * fewer, it uses some of them.
 */
module Runs {
  import opened StateMachine
  import opened Sequences
  import opened StateIndex
  import opened Tasks
  import opened Engine
  import opened Lives
  import opened RetryTiming

  datatype Settings = Settings(
    cfg: Config, maxHistory: int, maxConcurrent: nat, rebuildInterval: nat, checkInterval: int,
    defaultTimeout: Option<int>, maxBackoff: int)

  datatype HeapEntry = HeapEntry(deadline: Time, id: Id)

  /**
   * `sem` is the number of slots taken, `inflight` the creations that hold a slot but have no task
   * yet; `lives` records the past of every task ever created.
   */
  datatype Sys = Sys(
    store: Store, heap: multiset<HeapEntry>, stale: bool, ticks: nat,
    sem: nat, inflight: nat, clock: Time, lives: map<Id, Life>)

  predicate Readings(clock: Time, ts: seq<Time>) {
    |ts| == 4 && clock <= ts[0] <= ts[1] <= ts[2] <= ts[3]
  }

  const Initial := Sys(Store(map[], map[]), multiset{}, true, 0, 0, 0, 0, map[])

  // ---------- pieces ----------

  function Release(y: Sys): Sys {
    y.(sem := if y.sem > 0 then y.sem - 1 else 0)
  }

  function Pushed(y: Sys, id: Id, deadline: Time): Sys {
    y.(heap := y.heap + multiset{HeapEntry(deadline, id)})
  }

  function Logged(y: Sys, id: Id): map<Id, Life>
    requires id in y.store.db && id in y.lives
  {
    y.lives[id := y.lives[id].(log := y.lives[id].log + [y.store.db[id]])]
  }

  /** HandleTransitionCommand, with the task's life kept up to date. */
  function Commit(st: Settings, y: Sys, cmd: Command, ts: seq<Time>, retry: bool): (Sys, Outcome)
    requires |ts| == 4
  {
    var (s', o) := Commanded(st.cfg, y.store, cmd, ts[2], ts[3], st.maxHistory);
    var id := cmd.taskId;
    if o == Done && id in y.lives && Writes(y.store.db[id], cmd) then
      (y.(store := s', lives := y.lives[id :=
         CommandLife(st.cfg, y.store.db[id], y.lives[id], cmd, ts[2], ts[3], st.maxHistory, retry)]), o)
    else (y.(store := s'), o)
  }

  // ---------- handlers ----------

  /** handlePolicyMatchedEvent, part one: wait for a slot. */
  function Acquired(y: Sys): Sys {
    y.(sem := y.sem + 1, inflight := y.inflight + 1)
  }

  /** Part two: create the task. */
  function Admitted(st: Settings, y: Sys, spec: Spec, ts: seq<Time>): Sys
    requires |ts| == 4 && y.inflight > 0
  {
    y.(store := TaskCreated(st.cfg, y.store, spec, ts[0], ts[1], st.maxHistory),
       inflight := y.inflight - 1, clock := ts[3],
       lives := y.lives[spec.id := CreationLife(st.cfg, spec, ts[0], ts[1], st.maxHistory)])
  }

  /** Part two when creation fails: give the slot back. */
  function CreateFailed(y: Sys): Sys
    requires y.inflight > 0 && y.sem > 0
  {
    y.(inflight := y.inflight - 1, sem := y.sem - 1)
  }

  function FirstDeadline(st: Settings, copy: Task, ts: seq<Time>): Time
    requires |ts| == 4
  {
    ts[0] + EffectiveTimeout(copy.ruleTimeout, st.defaultTimeout)
  }

  /** Part three: put a deadline on the copy CreateTask returned and write it back. */
  function TimeoutSet(st: Settings, y: Sys, copy: Task, ts: seq<Time>): Sys
    requires |ts| == 4
  {
    var deadline := FirstDeadline(st, copy, ts);
    var (s', o) := Updated(y.store, copy.(timeoutAt := Some(deadline)), ts[1]);
    if o == Done && copy.id in y.lives then
      var y' := y.(store := s', clock := ts[3]);
      Pushed(y'.(lives := Logged(y', copy.id)), copy.id, deadline)
    else y.(store := s', clock := ts[3])
  }

  /** handleTransitionCommand: a success that targets a terminal state releases a slot. */
  function CommandHandled(st: Settings, y: Sys, cmd: Command, ts: seq<Time>): Sys
    requires |ts| == 4
  {
    if cmd.taskId == "" || cmd.current == "" || cmd.target == "" then y.(clock := ts[3])
    else
      var (y', o) := Commit(st, y, cmd, ts, false);
      (if o == Done && st.cfg.IsTerminal(cmd.target) then Release(y') else y').(clock := ts[3])
  }

  function RetryDeadline(st: Settings, t: Task, ts: seq<Time>): Time
    requires |ts| == 4
  {
    ts[1] + EffectiveTimeout(t.ruleTimeout, st.defaultTimeout)
  }

  function RetryCommand(st: Settings, t: Task, ts: seq<Time>): Command
    requires |ts| == 4 && t.state in st.cfg.states
  {
    Command(t.id, t.state, st.cfg.RetryTarget(t.state), "timeout-handler", "retry after timeout",
            Some(t.retryCount + 1), Some(RetryDeadline(st, t, ts)))
  }

  predicate BackoffElapsed(st: Settings, t: Task, now: Time) {
    t.retryCount >= 0 && t.stateUpdatedAt + Backoff(t.retryCount, st.maxBackoff) <= now
  }

  /** handleTaskRetry */
  function Retried(st: Settings, y: Sys, t: Task, ts: seq<Time>): Sys
    requires |ts| == 4 && t.state in st.cfg.states
  {
    if !BackoffElapsed(st, t, ts[0]) then y
    else
      var (y', o) := Commit(st, y, RetryCommand(st, t, ts), ts, true);
      if o == Done then Pushed(y', t.id, RetryDeadline(st, t, ts)) else y'
  }

  function ArchiveCommand(t: Task, target: State): Command {
    Command(t.id, t.state, target, "timeout-handler", "timeout", None, None)
  }

  /** The loop over the terminal states: the first one that can be entered is. */
  function TryTerminals(st: Settings, y: Sys, t: Task, targets: seq<State>, ts: seq<Time>): (Sys, bool)
    requires |ts| == 4
  {
    if targets == [] then (y, false)
    else if !st.cfg.IsAllowed(t.state, targets[0]) then TryTerminals(st, y, t, targets[1..], ts)
    else
      var (y', o) := Commit(st, y, ArchiveCommand(t, targets[0]), ts, false);
      if o == Done then (y', true) else TryTerminals(st, y', t, targets[1..], ts)
  }

  function ResultWritten(y: Sys, id: Id, ts: seq<Time>): Sys
    requires |ts| == 4
  {
    var (s', o) := ResultUpdated(y.store, id, TaskResult(false, "task timed out"), ts[3]);
    var y' := y.(store := s');
    if o == Done && id in y.lives then y'.(lives := Logged(y', id)) else y'
  }

  /** handleTaskArchive */
  function ArchivedOnTimeout(st: Settings, y: Sys, t: Task, ts: seq<Time>): Sys
    requires |ts| == 4
  {
    var (y', moved) := TryTerminals(st, y, t, st.cfg.terminalStates, ts);
    if moved then Release(ResultWritten(y', t.id, ts)) else y'
  }

  /** handleTimeoutEvent */
  function TimeoutHandled(st: Settings, y: Sys, id: Id, state: State, ts: seq<Time>): Sys
    requires |ts| == 4
  {
    if id == "" || state == "" || id !in y.store.db then y
    else
      var t := y.store.db[id];
      if t.state != state || t.state !in st.cfg.states then y
      else if st.cfg.states[t.state].autoRetry && t.retryCount < st.cfg.states[t.state].maxRetries then
        Retried(st, y, t, ts)
      else ArchivedOnTimeout(st, y, t, ts)
  }

  predicate TimedOut(t: Task, now: Time) {
    t.timeoutAt.Some? && t.timeoutAt.value < now
  }

  /** One round of the sweep: take an entry off the heap, and fire if its task is past its deadline. */
  function Popped(st: Settings, y: Sys, e: HeapEntry, now: Time, ts: seq<Time>): Sys
    requires |ts| == 4
  {
    var y' := y.(heap := y.heap - multiset{e}, clock := ts[3]);
    if Fires(y, e, now) then TimeoutHandled(st, y', e.id, y.store.db[e.id].state, ts) else y'
  }

  /** `now` was read earlier in the sweep; the entry is due and none is smaller. */
  ghost predicate CanPop(y: Sys, e: HeapEntry, now: Time, ts: seq<Time>) {
    && e in y.heap && e.deadline <= now <= y.clock && Readings(y.clock, ts)
    && forall x :: x in y.heap ==> e.deadline <= x.deadline
  }

  predicate Fires(y: Sys, e: HeapEntry, now: Time) {
    e.id in y.store.db && TimedOut(y.store.db[e.id], now)
  }

  /** The tasks a rebuild looks at. */
  predicate Tracked(db: Db, id: Id) {
    id in db && db[id].archivedAt.None? && db[id].timeoutAt.Some?
  }

  /** A deadline that has passed is entered as due now. */
  function EntryFor(db: Db, id: Id, now: Time): HeapEntry
    requires Tracked(db, id)
  {
    HeapEntry(if db[id].timeoutAt.value < now then now else db[id].timeoutAt.value, id)
  }

  /** The heap a rebuild makes: one entry per un-archived task with a deadline. */
  function FreshHeap(db: Db, now: Time): set<HeapEntry> {
    set id | id in db && Tracked(db, id) :: EntryFor(db, id, now)
  }

  predicate NeedsRebuild(st: Settings, y: Sys) {
    y.stale || |y.heap| == 0 || y.ticks + 1 >= st.rebuildInterval
  }

  /** The start of a sweep; `r` is the rebuild's clock reading, `now` the sweep's. */
  function SweepStarted(st: Settings, y: Sys, r: Time, now: Time): Sys {
    if NeedsRebuild(st, y) then
      y.(heap := multiset(FreshHeap(y.store.db, r)), stale := false, ticks := 0, clock := now)
    else y.(ticks := y.ticks + 1, clock := now)
  }

  /** ArchiveCleaner.cleanup over the listed tasks. */
  function CleanedUp(s: Store, ids: seq<Id>, cutoff: Time): Store {
    if ids == [] then s
    else
      var s' := CleanedUp(s, ids[..|ids| - 1], cutoff);
      var id := ids[|ids| - 1];
      if Expired(s.db, id, cutoff) then Deleted(s', id) else s'
  }

  predicate Expired(db: Db, id: Id, cutoff: Time) {
    id in db && db[id].archivedAt.Some? && db[id].archivedAt.value < cutoff
  }

  /** recoverOrphanedTasks over the listed tasks: archive what is terminal and not yet archived. */
  function Recovered(cfg: Config, s: Store, ids: seq<Id>, now: Time): Store {
    if ids == [] then s
    else
      var s' := Recovered(cfg, s, ids[..|ids| - 1], now);
      var id := ids[|ids| - 1];
      if Orphan(cfg, s.db, id) then Updated(s', s.db[id].(archivedAt := Some(now)), now).0 else s'
  }

  predicate Orphan(cfg: Config, db: Db, id: Id) {
    id in db && cfg.IsTerminal(db[id].state) && db[id].archivedAt.None?
  }

  /**
   * A new process on the same database: fresh index, orphans archived, slots refilled, empty heap.
   * `keys` is the order in which the database lists its keys, `listed` the tasks recovery goes through.
   */
  function Restarted(st: Settings, y: Sys, keys: seq<Id>, listed: seq<Id>, now: Time): Sys {
    var s' := Recovered(st.cfg, Store(y.store.db, Rebuilt(y.store.db, keys)), listed, now);
    var active := |LiveTasks(s'.db)|;
    Sys(s', multiset{}, true, 0, if active < st.maxConcurrent then active else st.maxConcurrent, 0, now,
        map id | id in y.lives :: if Orphan(st.cfg, y.store.db, id) && id in s'.db
                                  then y.lives[id].(log := y.lives[id].log + [s'.db[id]]) else y.lives[id])
  }

  // ---------- runs ----------

  datatype Event =
    | Acquire
    | Create(spec: Spec, ts: seq<Time>)
    | CreateFail
    | SetTimeout(copy: Task, ts: seq<Time>)
    | Receive(cmd: Command, ts: seq<Time>)
    | SweepStart(r: Time, now: Time)
    | Pop(entry: HeapEntry, now: Time, ts: seq<Time>)
    | Cleanup(ids: seq<Id>, cutoff: Time)
    | Restart(keys: seq<Id>, listed: seq<Id>, now: Time)

  ghost predicate Enabled(st: Settings, y: Sys, ev: Event) {
    match ev
    case Acquire => y.sem < st.maxConcurrent
    case Create(spec, ts) => y.inflight > 0 && spec.id != "" && spec.id !in y.lives && Readings(y.clock, ts)
    case CreateFail => y.inflight > 0 && y.sem > 0
    case SetTimeout(copy, ts) => copy.id in y.lives && copy in y.lives[copy.id].log && Readings(y.clock, ts)
    case Receive(cmd, ts) => cmd.setRetryCount.None? && cmd.setTimeoutAt.None? && Readings(y.clock, ts)
    case SweepStart(r, now) => y.clock <= r <= now
    case Pop(e, now, ts) => CanPop(y, e, now, ts)
    case Cleanup(ids, cutoff) => Distinct(ids) && Elements(ids) == y.store.db.Keys
    case Restart(keys, listed, now) =>
      && Distinct(keys) && Elements(keys) == y.store.db.Keys
      && Distinct(listed) && Elements(listed) == LiveTasks(y.store.db).Keys && y.clock <= now
  }

  ghost function Apply(st: Settings, y: Sys, ev: Event): Sys
    requires Enabled(st, y, ev)
  {
    match ev
    case Acquire => Acquired(y)
    case Create(spec, ts) => Admitted(st, y, spec, ts)
    case CreateFail => CreateFailed(y)
    case SetTimeout(copy, ts) => TimeoutSet(st, y, copy, ts)
    case Receive(cmd, ts) => CommandHandled(st, y, cmd, ts)
    case SweepStart(r, now) => SweepStarted(st, y, r, now)
    case Pop(e, now, ts) => Popped(st, y, e, now, ts)
    case Cleanup(ids, cutoff) => y.(store := CleanedUp(y.store, ids, cutoff))
    case Restart(keys, listed, now) => Restarted(st, y, keys, listed, now)
  }

  /** Each event of the sequence is enabled in the state the ones before it lead to. */
  ghost predicate IsRunOf(st: Settings, evs: seq<Event>)
    decreases |evs|, 0
  {
    evs == [] || (IsRunOf(st, evs[..|evs| - 1]) && Enabled(st, StateAfter(st, evs[..|evs| - 1]), evs[|evs| - 1]))
  }

  ghost function StateAfter(st: Settings, evs: seq<Event>): Sys
    requires IsRunOf(st, evs)
    decreases |evs|, 1
  {
    if evs == [] then Initial else Apply(st, StateAfter(st, evs[..|evs| - 1]), evs[|evs| - 1])
  }
}
