/**
 * What a timeout does to a task (pkg/core/core.go, pkg/task/timeout_checker.go): which state, deadline,
 * result and slot it leaves, for every configuration.
 */
module Outcomes {
  import opened StateMachine
  import opened StateIndex
  import opened Tasks
  import opened Engine
  import opened RetryTiming
  import opened Runs

  /** Heap, slots and clock are untouched. */
  predicate SameRest(y: Sys, y': Sys) {
    && y'.heap == y.heap && y'.sem == y.sem && y'.inflight == y.inflight
    && y'.stale == y.stale && y'.ticks == y.ticks && y'.clock == y.clock
  }

  lemma CommitRest(st: Settings, y: Sys, cmd: Command, ts: seq<Time>, retry: bool)
    requires |ts| == 4
    ensures var (y', o) := Commit(st, y, cmd, ts, retry);
      && (y'.store, o) == Commanded(st.cfg, y.store, cmd, ts[2], ts[3], st.maxHistory)
      && SameRest(y, y') && (o != Done ==> y' == y)
  {
  }

  // ---------- retrying ----------

  /** Where a retry out of `s` leads: the state it names, or the initial state. */
  predicate RetriesTo(cfg: Config, s: State, x: State) {
    s in cfg.states && if cfg.states[s].retryToState == "" then x == cfg.initialState else x == cfg.states[s].retryToState
  }

  /** The deadline a retry at time `now` gives: the rule's timeout if it is set and shorter than the default. */
  predicate NewDeadline(st: Settings, t: Task, now: Time, d: Time) {
    var limit := if st.defaultTimeout.Some? && st.defaultTimeout.value > 0 then st.defaultTimeout.value else 1_800_000_000_000;
    d == now + if t.ruleTimeout.Some? && 0 < t.ruleTimeout.value < limit then t.ruleTimeout.value else limit
  }

  /** Before its backoff has elapsed, or if the transition is not allowed, a retry does nothing. */
  lemma RetryRefused(st: Settings, y: Sys, id: Id, x: State, ts: seq<Time>)
    requires KeysMatch(y.store.db) && |ts| == 4 && id in y.store.db && RetriesTo(st.cfg, y.store.db[id].state, x)
    requires var t := y.store.db[id];
      || t.retryCount < 0 || t.stateUpdatedAt + Backoff(t.retryCount, st.maxBackoff) > ts[0]
      || (x != t.state && Transition(t.state, x, true) !in st.cfg.transitions)
    ensures Retried(st, y, y.store.db[id], ts) == y
  {
    var t := y.store.db[id];
    CommitRest(st, y, RetryCommand(st, t, ts), ts, true);
    CommandOutcome(st.cfg, y.store, RetryCommand(st, t, ts), ts[2], ts[3], st.maxHistory);
  }

  /** The state of things after a retry into x was carried out. */
  ghost predicate RetriedInto(y: Sys, y': Sys, id: Id, x: State, d: Time)
    requires id in y.store.db
  {
    && OthersKept(y.store, y'.store, id) && id in y'.store.db
    && y'.heap == y.heap + multiset{HeapEntry(d, id)} && y'.sem == y.sem && y'.inflight == y.inflight
    && var t, t' := y.store.db[id], y'.store.db[id];
       && SameOrigin(t, t') && t'.state == x && t'.retryCount == t.retryCount + 1 && t'.version == t.version + 1
       && t'.timeoutAt == if x != t.state then Some(d) else t.timeoutAt
  }

  /**
   * A retry that is carried out leaves the task in the state the configuration names, or in the initial
   * one if it names none, one retry further, and pushes a new deadline, which is also the stored one
   * if the state changed. A retry in place pushes the deadline without storing it.
   */
  lemma RetryOutcome(st: Settings, y: Sys, id: Id, x: State, d: Time, ts: seq<Time>)
    requires KeysMatch(y.store.db) && |ts| == 4 && id in y.store.db && RetriesTo(st.cfg, y.store.db[id].state, x)
    requires var t := y.store.db[id];
      && t.retryCount >= 0 && t.stateUpdatedAt + Backoff(t.retryCount, st.maxBackoff) <= ts[0]
      && (x == t.state || Transition(t.state, x, true) in st.cfg.transitions) && NewDeadline(st, t, ts[1], d)
    ensures RetriedInto(y, Retried(st, y, y.store.db[id], ts), id, x, d)
    ensures x != y.store.db[id].state ==>
      Retried(st, y, y.store.db[id], ts).store.db[id].archivedAt == if x in st.cfg.terminalStates then Some(ts[2]) else None
  {
    var t := y.store.db[id];
    var cmd := RetryCommand(st, t, ts);
    CommitRest(st, y, cmd, ts, true);
    CommandOutcome(st.cfg, y.store, cmd, ts[2], ts[3], st.maxHistory);
    if x != t.state {
      CommandWrites(st.cfg, y.store, cmd, ts[2], ts[3], st.maxHistory);
    } else {
      RepeatWrites(st.cfg, y.store, cmd, ts[2], ts[3], st.maxHistory);
    }
  }

  // ---------- archiving ----------

  /** x is the first terminal state, in configuration order, that may follow s. */
  predicate FirstTerminal(cfg: Config, targets: seq<State>, s: State, x: State) {
    exists i :: 0 <= i < |targets| && targets[i] == x && Transition(s, x, true) in cfg.transitions
                && forall j :: 0 <= j < i ==> Transition(s, targets[j], true) !in cfg.transitions
  }

  predicate NoTerminal(cfg: Config, targets: seq<State>, s: State) {
    forall j :: 0 <= j < |targets| ==> Transition(s, targets[j], true) !in cfg.transitions
  }

  lemma {:induction false} NothingToEnter(st: Settings, y: Sys, t: Task, targets: seq<State>, ts: seq<Time>)
    requires |ts| == 4 && NoTerminal(st.cfg, targets, t.state)
    ensures TryTerminals(st, y, t, targets, ts) == (y, false)
    decreases |targets|
  {
    if targets != [] {
      NothingToEnter(st, y, t, targets[1..], ts);
    }
  }

  /** The loop over terminal states enters the first one that is allowed. */
  lemma {:induction false} EntersFirst(st: Settings, y: Sys, t: Task, targets: seq<State>, x: State, ts: seq<Time>)
    requires |ts| == 4 && t.id in y.store.db && y.store.db[t.id] == t && FirstTerminal(st.cfg, targets, t.state, x)
    ensures TryTerminals(st, y, t, targets, ts) == (Commit(st, y, ArchiveCommand(t, x), ts, false).0, true)
    decreases |targets|
  {
    var i :| 0 <= i < |targets| && targets[i] == x && Transition(t.state, x, true) in st.cfg.transitions
             && forall j :: 0 <= j < i ==> Transition(t.state, targets[j], true) !in st.cfg.transitions;
    if i == 0 {
      CommitRest(st, y, ArchiveCommand(t, x), ts, false);
      CommandOutcome(st.cfg, y.store, ArchiveCommand(t, x), ts[2], ts[3], st.maxHistory);
    } else {
      assert Transition(t.state, targets[0], true) !in st.cfg.transitions;
      FirstOfRest(st.cfg, targets, t.state, x, i);
      EntersFirst(st, y, t, targets[1..], x, ts);
    }
  }

  lemma FirstOfRest(cfg: Config, targets: seq<State>, s: State, x: State, i: nat)
    requires 0 < i < |targets| && targets[i] == x && Transition(s, x, true) in cfg.transitions
    requires forall j :: 0 <= j < i ==> Transition(s, targets[j], true) !in cfg.transitions
    ensures FirstTerminal(cfg, targets[1..], s, x)
  {
    assert targets[1..][i - 1] == x;
  }

  /** Archived in state x with a failed result, and one slot given back. */
  ghost predicate ArchivedIn(y: Sys, y': Sys, id: Id, x: State, now: Time)
    requires id in y.store.db
  {
    && OthersKept(y.store, y'.store, id) && id in y'.store.db
    && y'.heap == y.heap && y'.inflight == y.inflight && y'.sem == (if y.sem > 0 then y.sem - 1 else 0)
    && var t, t' := y.store.db[id], y'.store.db[id];
       && t'.state == x && t'.archivedAt == Some(now) && t'.result == Some(TaskResult(false, "task timed out"))
       && t'.version == t.version + 2 && t'.retryCount == t.retryCount && t'.timeoutAt == t.timeoutAt
       && t'.priority == t.priority && t'.ruleTimeout == t.ruleTimeout && t'.createdAt == t.createdAt
  }

  /**
   * Archiving a task that is not in a terminal state: it enters the first terminal state that is
   * allowed, is archived with a failed result, and its slot is given back; if none is allowed,
   * nothing changes.
   */
  lemma ArchiveOutcome(st: Settings, y: Sys, id: Id, ts: seq<Time>)
    requires KeysMatch(y.store.db) && |ts| == 4 && id in y.store.db && y.store.db[id].state !in st.cfg.terminalStates
    ensures NoTerminal(st.cfg, st.cfg.terminalStates, y.store.db[id].state) ==>
      ArchivedOnTimeout(st, y, y.store.db[id], ts) == y
    ensures forall x :: FirstTerminal(st.cfg, st.cfg.terminalStates, y.store.db[id].state, x) ==>
      ArchivedIn(y, ArchivedOnTimeout(st, y, y.store.db[id], ts), id, x, ts[2])
  {
    var t := y.store.db[id];
    if NoTerminal(st.cfg, st.cfg.terminalStates, t.state) {
      NothingToEnter(st, y, t, st.cfg.terminalStates, ts);
    }
    forall x | FirstTerminal(st.cfg, st.cfg.terminalStates, t.state, x)
      ensures ArchivedIn(y, ArchivedOnTimeout(st, y, t, ts), id, x, ts[2])
    {
      EntersFirst(st, y, t, st.cfg.terminalStates, x, ts);
      EnteredIsArchived(st, y, id, x, ts);
    }
  }

  lemma EnteredIsArchived(st: Settings, y: Sys, id: Id, x: State, ts: seq<Time>)
    requires KeysMatch(y.store.db) && |ts| == 4 && id in y.store.db && y.store.db[id].state != x
    requires Transition(y.store.db[id].state, x, true) in st.cfg.transitions && x in st.cfg.terminalStates
    ensures var mid := Commit(st, y, ArchiveCommand(y.store.db[id], x), ts, false).0;
      ArchivedIn(y, Release(ResultWritten(mid, id, ts)), id, x, ts[2])
  {
    var cmd := ArchiveCommand(y.store.db[id], x);
    CommitRest(st, y, cmd, ts, false);
    CommandWrites(st.cfg, y.store, cmd, ts[2], ts[3], st.maxHistory);
    var mid := Commit(st, y, cmd, ts, false).0;
    assert KeysMatch(mid.store.db);
    ResultRest(mid, id, ts);
  }

  lemma ResultRest(y: Sys, id: Id, ts: seq<Time>)
    requires KeysMatch(y.store.db) && |ts| == 4
    ensures var y' := ResultWritten(y, id, ts);
      y'.store == ResultUpdated(y.store, id, TaskResult(false, "task timed out"), ts[3]).0 && SameRest(y, y')
  {
  }

  /** Either some terminal state may follow, and then there is a first one, or none may. */
  lemma {:induction false} FirstOrNone(cfg: Config, targets: seq<State>, s: State)
    ensures NoTerminal(cfg, targets, s) <==> !exists x :: FirstTerminal(cfg, targets, s, x)
  {
    if targets != [] {
      if Transition(s, targets[0], true) in cfg.transitions {
        assert FirstTerminal(cfg, targets, s, targets[0]);
      } else {
        FirstOrNone(cfg, targets[1..], s);
        if !NoTerminal(cfg, targets[1..], s) {
          var x :| FirstTerminal(cfg, targets[1..], s, x);
          var i :| 0 <= i < |targets[1..]| && targets[1..][i] == x
                   && forall j :: 0 <= j < i ==> Transition(s, targets[1..][j], true) !in cfg.transitions;
          assert targets[i + 1] == x;
          assert FirstTerminal(cfg, targets, s, x);
        }
      }
    }
  }

  // ---------- the whole handler ----------

  /** The task has retries left in its state. */
  predicate CanRetry(cfg: Config, t: Task) {
    t.state in cfg.states && cfg.states[t.state].autoRetry && t.retryCount < cfg.states[t.state].maxRetries
  }

  /**
   * A timeout of a task that cannot retry: it ends in the first terminal state allowed, or stays as
   * it is for good if there is none.
   */
  lemma TimeoutEndsTask(st: Settings, y: Sys, id: Id, ts: seq<Time>)
    requires KeysMatch(y.store.db) && |ts| == 4 && id != "" && id in y.store.db
    requires var t := y.store.db[id];
      t.state != "" && t.state in st.cfg.states && t.state !in st.cfg.terminalStates && !CanRetry(st.cfg, t)
    ensures var t, y' := y.store.db[id], TimeoutHandled(st, y, id, y.store.db[id].state, ts);
      if NoTerminal(st.cfg, st.cfg.terminalStates, t.state) then y' == y
      else exists x :: FirstTerminal(st.cfg, st.cfg.terminalStates, t.state, x) && ArchivedIn(y, y', id, x, ts[2])
  {
    ArchiveOutcome(st, y, id, ts);
    FirstOrNone(st.cfg, st.cfg.terminalStates, y.store.db[id].state);
  }

  /** A timeout of a task with retries left: it retries once the backoff is over, and if that is allowed. */
  lemma TimeoutRetriesTask(st: Settings, y: Sys, id: Id, x: State, d: Time, ts: seq<Time>)
    requires KeysMatch(y.store.db) && |ts| == 4 && id != "" && id in y.store.db
    requires var t := y.store.db[id];
      t.state != "" && t.retryCount >= 0 && CanRetry(st.cfg, t) && RetriesTo(st.cfg, t.state, x) && NewDeadline(st, t, ts[1], d)
    ensures var t, y' := y.store.db[id], TimeoutHandled(st, y, id, y.store.db[id].state, ts);
      if && t.stateUpdatedAt + Backoff(t.retryCount, st.maxBackoff) <= ts[0]
         && (x == t.state || Transition(t.state, x, true) in st.cfg.transitions)
      then RetriedInto(y, y', id, x, d) else y' == y
  {
    var t := y.store.db[id];
    if && t.stateUpdatedAt + Backoff(t.retryCount, st.maxBackoff) <= ts[0]
       && (x == t.state || Transition(t.state, x, true) in st.cfg.transitions) {
      RetryOutcome(st, y, id, x, d, ts);
    } else {
      RetryRefused(st, y, id, x, ts);
    }
  }

  /** Timeouts of tasks that are gone, have moved on or are in no declared state are ignored. */
  lemma TimeoutIgnored(st: Settings, y: Sys, id: Id, state: State, ts: seq<Time>)
    requires |ts| == 4
    requires id == "" || state == "" || id !in y.store.db || y.store.db[id].state != state || state !in st.cfg.states
    ensures TimeoutHandled(st, y, id, state, ts) == y
  {
  }

  /** A round of a sweep takes its entry away, and hands on the task exactly if its deadline is strictly past. */
  lemma RoundOutcome(st: Settings, y: Sys, e: HeapEntry, now: Time, ts: seq<Time>)
    requires |ts| == 4
    ensures var y' := y.(heap := y.heap - multiset{e}, clock := ts[3]);
      Popped(st, y, e, now, ts) ==
        if e.id in y.store.db && y.store.db[e.id].timeoutAt.Some? && y.store.db[e.id].timeoutAt.value < now
        then TimeoutHandled(st, y', e.id, y.store.db[e.id].state, ts) else y'
  {
  }

  // ---------- start of a sweep, first deadline ----------

  /**
   * A sweep rebuilds the heap if it is stale or empty or was kept for long enough. A rebuilt heap has
   * one entry for every un-archived task with a deadline: at that deadline, or now if it has passed.
   */
  lemma SweepStartOutcome(st: Settings, y: Sys, r: Time, now: Time)
    ensures var y' := SweepStarted(st, y, r, now);
      && y'.store == y.store && y'.sem == y.sem && y'.inflight == y.inflight && y'.clock == now
      && if y.stale || y.heap == multiset{} || y.ticks + 1 >= st.rebuildInterval
         then !y'.stale && y'.ticks == 0 && forall d, id :: y'.heap[HeapEntry(d, id)] == DueTimes(y.store.db, id, d, r)
         else y'.heap == y.heap && y'.stale == y.stale && y'.ticks == y.ticks + 1
  {
    assert |y.heap| == 0 <==> y.heap == multiset{};
  }

  /** How often a heap rebuilt at time r has the task at deadline d. */
  function DueTimes(db: Db, id: Id, d: Time, r: Time): nat {
    if && id in db && db[id].archivedAt.None? && db[id].timeoutAt.Some?
       && d == (if db[id].timeoutAt.value < r then r else db[id].timeoutAt.value)
    then 1 else 0
  }

  /** A new task gets its deadline, stored and in the heap, on top of what its creation stored. */
  lemma FirstDeadlineOutcome(st: Settings, y: Sys, copy: Task, d: Time, ts: seq<Time>)
    requires |ts| == 4 && copy.id in y.lives && copy.id in y.store.db && y.store.db[copy.id] == copy
    requires NewDeadline(st, copy, ts[0], d)
    ensures var y' := TimeoutSet(st, y, copy, ts);
      && OthersKept(y.store, y'.store, copy.id) && copy.id in y'.store.db
      && y'.store.db[copy.id] == copy.(timeoutAt := Some(d), updatedAt := ts[1], version := copy.version + 1)
      && y'.heap == y.heap + multiset{HeapEntry(d, copy.id)} && y'.sem == y.sem && y'.inflight == y.inflight
  {
    UpdateWrites(y.store, copy.(timeoutAt := Some(d)), ts[1]);
  }

  // ---------- received commands, clean-up, recovery ----------

  /** A received command is ignored if a name is missing; otherwise it is carried out, and success in a terminal state frees a slot. */
  lemma ReceiveOutcome(st: Settings, y: Sys, cmd: Command, ts: seq<Time>)
    requires |ts| == 4
    ensures var y' := CommandHandled(st, y, cmd, ts);
      var (s', o) := Commanded(st.cfg, y.store, cmd, ts[2], ts[3], st.maxHistory);
      && y'.heap == y.heap && y'.inflight == y.inflight && y'.clock == ts[3]
      && if cmd.taskId == "" || cmd.current == "" || cmd.target == "" then y'.store == y.store && y'.sem == y.sem
         else
           && y'.store == s'
           && y'.sem == if o == Done && cmd.target in st.cfg.terminalStates && y.sem > 0 then y.sem - 1 else y.sem
  {
    CommitRest(st, y, cmd, ts, false);
  }

  /** Clean-up deletes exactly the tasks archived before the cutoff. */
  lemma {:induction false} CleanupOutcome(s: Store, ids: seq<Id>, cutoff: Time)
    ensures var s' := CleanedUp(s, ids, cutoff);
      && (forall id :: id in s'.db <==>
            id in s.db && !(id in ids && s.db[id].archivedAt.Some? && s.db[id].archivedAt.value < cutoff))
      && (forall id :: id in s'.db ==> s'.db[id] == s.db[id])
  {
    if ids != [] {
      CleanupOutcome(s, ids[..|ids| - 1], cutoff);
      assert ids == ids[..|ids| - 1] + [ids[|ids| - 1]];
    }
  }
}
