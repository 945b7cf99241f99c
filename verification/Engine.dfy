/** The state machine engine of pkg/task/state_machine_engine.go. */
module Engine {
  import opened StateMachine
  import opened StateIndex
  import opened Tasks
  import opened TaskStores

  /** What the caller of CreateTask supplies, as far as the engine looks at it. */
  datatype Spec = Spec(id: Id, priority: int, ruleTimeout: Option<int>)

  datatype Command = Command(
    taskId: Id, current: State, target: State, component: string, message: string,
    setRetryCount: Option<int>, setTimeoutAt: Option<Time>)

  // ---------- creation ----------

  function BlankTask(spec: Spec): Task {
    Task(spec.id, spec.priority, 0, 0, "", None, spec.ruleTimeout, 0, 0, 0, [], None, None)
  }

  /** Store first, then record the initial state. */
  function TaskCreated(cfg: Config, s: Store, spec: Spec, t1: Time, t2: Time, max: int): Store {
    if spec.id == "" then s
    else StateRecorded(Created(s, BlankTask(spec), t1), spec.id, cfg.initialState, "system", "task created", t2, max).0
  }

  lemma CreationKeepsIndex(cfg: Config, s: Store, spec: Spec, t1: Time, t2: Time, max: int)
    requires Consistent(s) && spec.id !in s.db
    ensures Consistent(TaskCreated(cfg, s, spec, t1, t2, max))
  {
    if spec.id != "" {
      CreateKeepsIndex(s, BlankTask(spec), t1);
      RecordKeepsIndex(Created(s, BlankTask(spec), t1), spec.id, cfg.initialState, "system", "task created", t2, max);
    }
  }

  /** The stored task carries what the caller supplied and starts in the initial state. */
  lemma CreationWritesSpec(cfg: Config, s: Store, spec: Spec, t1: Time, t2: Time, max: int)
    requires spec.id != ""
    ensures var s' := TaskCreated(cfg, s, spec, t1, t2, max);
      && OthersKept(s, s', spec.id) && spec.id in s'.db
      && var t := s'.db[spec.id];
         && t.id == spec.id && t.priority == spec.priority && t.ruleTimeout == spec.ruleTimeout
         && t.state == cfg.initialState && t.version == 1 && t.retryCount == 0 && t.result == None
         && t.timeoutAt == None && t.archivedAt == None
         && t.createdAt == t1 && t.updatedAt == t2 && t.stateUpdatedAt == t2
         && EndsWith(t.history, Record("pending", cfg.initialState, t2, "system", "task created", 1))
  {
  }

  // ---------- transition commands ----------

  /** Checks a command against a copy of the task. */
  function Checked(cfg: Config, t: Task, cmd: Command): Outcome {
    if t.state == cmd.target then Done
    else if t.state != cmd.current then StateMismatch
    else if !cfg.IsAllowed(cmd.current, cmd.target) then Denied
    else Done
  }

  /** The change a checked command asks the store for, worked out from the same copy. */
  function ChangeFor(cfg: Config, t: Task, cmd: Command, now: Time): Change {
    if t.state == cmd.target then
      Change(t.state, "system", "retry count update", None, false, false, None, cmd.setRetryCount)
    else
      var terminal := cfg.IsTerminal(cmd.target);
      Change(
        cmd.target,
        if cmd.component != "" then cmd.component else "system",
        if cmd.message != "" then cmd.message else "state transition command",
        if terminal then Some(now) else None,
        !terminal && t.archivedAt.Some?,
        cmd.setTimeoutAt.None? && !terminal && t.timeoutAt.Some? && t.timeoutAt.value < now,
        cmd.setTimeoutAt,
        cmd.setRetryCount)
  }

  /** A repeated command writes only if it carries a retry count. */
  predicate Writes(t: Task, cmd: Command) {
    t.state != cmd.target || cmd.setRetryCount.Some?
  }

  /** A command handled in one go: check and commit see the same task. */
  function Commanded(cfg: Config, s: Store, cmd: Command, now: Time, stamp: Time, max: int): (Store, Outcome) {
    if cmd.taskId !in s.db then (s, NotFound)
    else
      var t := s.db[cmd.taskId];
      if Checked(cfg, t, cmd) != Done then (s, Checked(cfg, t, cmd))
      else if !Writes(t, cmd) then (s, Done)
      else Transitioned(s, cmd.taskId, ChangeFor(cfg, t, cmd, now), stamp, max)
  }

  /** The task as a committed command leaves it. */
  function After(cfg: Config, t: Task, cmd: Command, now: Time, stamp: Time, max: int): Task {
    Bumped(Changed(t, ChangeFor(cfg, t, cmd, now), stamp, max))
  }

  /** Which commands succeed, in the order the checks are made; a refused one changes nothing. */
  lemma CommandOutcome(cfg: Config, s: Store, cmd: Command, now: Time, stamp: Time, max: int)
    ensures var (s', o) := Commanded(cfg, s, cmd, now, stamp, max);
      && (o == NotFound <==> cmd.taskId !in s.db)
      && (cmd.taskId in s.db ==>
           var from := s.db[cmd.taskId].state;
           && (o == StateMismatch <==> from != cmd.target && from != cmd.current)
           && (o == Denied <==> from != cmd.target && from == cmd.current && Transition(from, cmd.target, true) !in cfg.transitions)
           && (o == Done <==> from == cmd.target || (from == cmd.current && Transition(from, cmd.target, true) in cfg.transitions)))
      && (o != Done ==> s' == s)
  {
  }

  /**
   * What a committed change of state does: archived exactly in a terminal state; the deadline is the
   * one given, or else cleared if it has passed and the target is not terminal, or else kept.
   */
  lemma CommandWrites(cfg: Config, s: Store, cmd: Command, now: Time, stamp: Time, max: int)
    requires KeysMatch(s.db) && cmd.taskId in s.db && s.db[cmd.taskId].state == cmd.current != cmd.target
    requires Transition(cmd.current, cmd.target, true) in cfg.transitions
    ensures var s' := Commanded(cfg, s, cmd, now, stamp, max).0;
      && OthersKept(s, s', cmd.taskId) && cmd.taskId in s'.db
      && var t, t' := s.db[cmd.taskId], s'.db[cmd.taskId];
         && SameOrigin(t, t') && t'.state == cmd.target && t'.version == t.version + 1
         && t'.updatedAt == stamp && t'.stateUpdatedAt == stamp
         && t'.retryCount == (if cmd.setRetryCount.Some? then cmd.setRetryCount.value else t.retryCount)
         && t'.archivedAt == (if cmd.target in cfg.terminalStates then Some(now) else None)
         && t'.timeoutAt ==
              (if cmd.setTimeoutAt.Some? then cmd.setTimeoutAt
               else if cmd.target !in cfg.terminalStates && t.timeoutAt.Some? && t.timeoutAt.value < now then None
               else t.timeoutAt)
         && EndsWith(t'.history, Record(cmd.current, cmd.target, stamp,
              if cmd.component != "" then cmd.component else "system",
              if cmd.message != "" then cmd.message else "state transition command",
              NextAttempt(t.history, cmd.target)))
  {
    TransitionWrites(s, cmd.taskId, ChangeFor(cfg, s.db[cmd.taskId], cmd, now), stamp, max);
  }

  /** A command to the state the task is in writes nothing but a retry count, if it carries one. */
  lemma RepeatWrites(cfg: Config, s: Store, cmd: Command, now: Time, stamp: Time, max: int)
    requires KeysMatch(s.db) && cmd.taskId in s.db && s.db[cmd.taskId].state == cmd.target
    ensures var s' := Commanded(cfg, s, cmd, now, stamp, max).0;
      && OthersKept(s, s', cmd.taskId) && cmd.taskId in s'.db
      && (cmd.setRetryCount.None? ==> s' == s)
      && (cmd.setRetryCount.Some? ==>
           var t, t' := s.db[cmd.taskId], s'.db[cmd.taskId];
           && SameOrigin(t, t') && t'.state == t.state && t'.version == t.version + 1
           && t'.updatedAt == stamp && t'.stateUpdatedAt == stamp && t'.retryCount == cmd.setRetryCount.value
           && t'.archivedAt == t.archivedAt && t'.timeoutAt == t.timeoutAt
           && EndsWith(t'.history,
                Record(t.state, t.state, stamp, "system", "retry count update", NextAttempt(t.history, t.state))))
  {
    TransitionWrites(s, cmd.taskId, ChangeFor(cfg, s.db[cmd.taskId], cmd, now), stamp, max);
  }

  lemma CommandKeepsIndex(cfg: Config, s: Store, cmd: Command, now: Time, stamp: Time, max: int)
    requires Consistent(s)
    ensures Consistent(Commanded(cfg, s, cmd, now, stamp, max).0)
  {
    if cmd.taskId in s.db {
      var t := s.db[cmd.taskId];
      TransitionKeepsIndex(s, cmd.taskId, ChangeFor(cfg, t, cmd, now), stamp, max);
    }
  }

  // ---------- the code ----------

  class StateMachineEngine {
    const config: Config
    const store: TaskStore

    constructor (store: TaskStore, config: Config)
      ensures this.store == store && this.config == config
    {
      this.store, this.config := store, config;
    }

    /** `payloadBuilt` is false when the payload builder reports an error. */
    method CreateTask(spec: Spec, payloadBuilt: bool, t1: Time, t2: Time) returns (created: Option<Task>)
      requires store.Valid()
      modifies store
      ensures store.Valid()
      ensures created.Some? <==> payloadBuilt && spec.id != ""
      ensures created.Some? ==>
        && store.Content() == TaskCreated(config, old(store.Content()), spec, t1, t2, store.maxStateHistory)
        && spec.id in store.db && created.value == store.db[spec.id]
      ensures created.Some? ==> store.db.Keys == old(store.db.Keys) + {spec.id}
      ensures created.None? ==> store.Content() == old(store.Content())
    {
      if !payloadBuilt {
        return None;
      }
      var task := Task(spec.id, spec.priority, 0, 0, "", None, spec.ruleTimeout, 0, 0, 0, [], None, None);
      var stored := store.Create(task, t1);
      if stored != Done {
        return None;
      }
      var recorded := store.UpdateStateWithRecord(task.id, config.initialState, "system", "task created", t2);
      if recorded != Done {
        return None;
      }
      created := store.Get(task.id);
    }

    method HandleTransitionCommand(cmd: Command, now: Time, stamp: Time) returns (outcome: Outcome)
      requires store.Valid()
      modifies store
      ensures store.Valid()
      ensures (store.Content(), outcome) ==
        Commanded(config, old(store.Content()), cmd, now, stamp, store.maxStateHistory)
    {
      var got := store.Get(cmd.taskId);
      if got == None {
        return NotFound;
      }
      var task := got.value;
      if task.state == cmd.target {
        if cmd.setRetryCount != None {
          outcome := store.TransitionState(cmd.taskId,
            Change(task.state, "system", "retry count update", None, false, false, None, cmd.setRetryCount), stamp);
          return;
        }
        return Done;
      }
      if task.state != cmd.current {
        return StateMismatch;
      }
      if !config.IsAllowed(cmd.current, cmd.target) {
        return Denied;
      }
      var actor := "system";
      if cmd.component != "" {
        actor := cmd.component;
      }
      var reason := "state transition command";
      if cmd.message != "" {
        reason := cmd.message;
      }
      var setArchivedAt := None;
      var clearArchived := false;
      var isTerminal := config.IsTerminal(cmd.target);
      if isTerminal {
        setArchivedAt := Some(now);
      } else if task.archivedAt != None {
        clearArchived := true;
      }
      var clearTimeout := false;
      var setTimeoutAt := None;
      if cmd.setTimeoutAt != None {
        setTimeoutAt := cmd.setTimeoutAt;
      } else if !isTerminal && task.timeoutAt != None && task.timeoutAt.value < now {
        clearTimeout := true;
      }
      outcome := store.TransitionState(cmd.taskId,
        Change(cmd.target, actor, reason, setArchivedAt, clearArchived, clearTimeout, setTimeoutAt, cmd.setRetryCount), stamp);
    }
  }
}
