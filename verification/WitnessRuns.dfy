/**
 * Runs that exist: they show that the conditions under which slots, limit and wait are right cannot
 * be dropped. All of them drive one task along allowed transitions while the clock stands still.
 */
module WitnessRuns {
  import opened StateMachine
  import opened Sequences
  import opened StateIndex
  import opened Tasks
  import opened Engine
  import opened Lives
  import opened RetryTiming
  import opened Runs
  import opened RunInvariants
  import opened Slots
  import opened Sweeps

  const STILL: seq<Time> := [0, 0, 0, 0]

  /** As the configuration loader leaves transitions: both ends are named. */
  predicate Loaded(cfg: Config) {
    forall t :: t in cfg.transitions ==> t.from != "" && t.to != ""
  }

  predicate Usable(st: Settings) {
    Runnable(st.cfg) && Loaded(st.cfg) && st.maxConcurrent > 0
  }

  /** The only task there is, in state s, never retried, with its first deadline. */
  ghost predicate Lone(st: Settings, y: Sys, id: Id, s: State) {
    && y.clock == 0 && y.store.db.Keys == {id} && y.lives.Keys == {id}
    && var t := y.store.db[id];
       t.id == id && t.state == s && t.retryCount == 0 && t.stateUpdatedAt == 0
       && t.timeoutAt == Some(DefaultTimeout(st.defaultTimeout))
       && (t.archivedAt.Some? <==> st.cfg.IsTerminal(s))
  }

  // ---------- building blocks ----------

  lemma Begin(st: Settings, id: Id) returns (evs: seq<Event>)
    requires Usable(st) && id != ""
    ensures IsRunOf(st, evs) && Lone(st, StateAfter(st, evs), id, st.cfg.initialState) && StateAfter(st, evs).stale
  {
    var spec := Spec(id, 0, None);
    var copy := CreatedTask(st.cfg, spec, 0, 0, st.maxHistory);
    RunSnoc(st, [], Acquire);
    var one := [] + [Acquire];
    RunSnoc(st, one, Create(spec, STILL));
    var two := one + [Create(spec, STILL)];
    var y := StateAfter(st, two);
    CreationWrites(st.cfg, Initial.store, spec, 0, 0, st.maxHistory);
    assert y.lives[id].log[1] == copy;
    RunSnoc(st, two, SetTimeout(copy, STILL));
    evs := two + [SetTimeout(copy, STILL)];
    SetTimeoutShape(st, y, copy, STILL);
  }

  function Go(id: Id, a: State, b: State): Command {
    Command(id, a, b, "", "", None, None)
  }

  lemma CommandMoves(st: Settings, y: Sys, id: Id, a: State, b: State)
    requires Lone(st, y, id, a) && id != "" && a != "" && b != "" && a != b && st.cfg.IsAllowed(a, b)
    ensures Lone(st, CommandHandled(st, y, Go(id, a, b), STILL), id, b)
  {
  }

  /** Commands take the task along any allowed walk. */
  lemma {:induction false} Drive(st: Settings, id: Id, w: seq<State>) returns (evs: seq<Event>)
    requires Usable(st) && id != "" && AllowedWalk(st.cfg, w)
    ensures IsRunOf(st, evs) && Lone(st, StateAfter(st, evs), id, w[|w| - 1])
    decreases |w|
  {
    if |w| == 1 {
      evs := Begin(st, id);
    } else {
      var pre, a, b := w[..|w| - 1], w[|w| - 2], w[|w| - 1];
      evs := Drive(st, id, pre);
      assert st.cfg.IsAllowed(a, b) && a != b;
      assert Transition(a, b, true) in st.cfg.transitions;
      CommandMoves(st, StateAfter(st, evs), id, a, b);
      RunSnoc(st, evs, Receive(Go(id, a, b), STILL));
      evs := evs + [Receive(Go(id, a, b), STILL)];
    }
  }

  lemma Extend(st: Settings, evs: seq<Event>, ev: Event) returns (more: seq<Event>)
    requires IsRunOf(st, evs) && Enabled(st, StateAfter(st, evs), ev)
    ensures IsRunOf(st, more) && StateAfter(st, more) == Apply(st, StateAfter(st, evs), ev)
    ensures more == evs + [ev]
  {
    RunSnoc(st, evs, ev);
    more := evs + [ev];
  }

  /** Just restarted, with a slot for the task if it is active. */
  ghost predicate Renewed(st: Settings, y: Sys, id: Id, s: State) {
    && Lone(st, y, id, s) && y.stale && y.inflight == 0
    && y.sem == Active(y) == if st.cfg.IsTerminal(s) then 0 else 1
  }

  function LoneListed(st: Settings, id: Id, s: State): seq<Id> {
    if st.cfg.IsTerminal(s) then [] else [id]
  }

  lemma LoneActive(st: Settings, y: Sys, id: Id, s: State)
    requires Lone(st, y, id, s)
    ensures LiveTasks(y.store.db).Keys == Elements(LoneListed(st, id, s))
    ensures Active(y) == if st.cfg.IsTerminal(s) then 0 else 1
  {
    var live := LiveTasks(y.store.db);
    assert live.Keys == if st.cfg.IsTerminal(s) then {} else {id};
    assert |live| == |live.Keys|;
  }

  lemma RestartShape(st: Settings, y: Sys, keys: seq<Id>, listed: seq<Id>, now: Time)
    ensures var y' := Restarted(st, y, keys, listed, now);
      && y'.stale && y'.inflight == 0 && y'.clock == now && y'.lives.Keys == y.lives.Keys
      && y'.sem == if Active(y') < st.maxConcurrent then Active(y') else st.maxConcurrent
  {
  }

  lemma LoneStays(st: Settings, y: Sys, y': Sys, id: Id, s: State)
    requires Lone(st, y, id, s) && y'.store.db == y.store.db && y'.lives.Keys == y.lives.Keys && y'.clock == 0
    ensures Lone(st, y', id, s)
  {
  }

  lemma RestartRenews(st: Settings, y: Sys, id: Id, s: State, keys: seq<Id>, listed: seq<Id>)
    requires st.maxConcurrent > 0 && Base(st, y) && Lone(st, y, id, s) && Enabled(st, y, Restart(keys, listed, 0))
    ensures Renewed(st, Restarted(st, y, keys, listed, 0), id, s)
  {
    RestartKeepsBase(st, y, keys, listed, 0);
    RestartShape(st, y, keys, listed, 0);
    var y' := Restarted(st, y, keys, listed, 0);
    LoneStays(st, y, y', id, s);
    LoneActive(st, y', id, s);
  }

  lemma LoneRestart(st: Settings, y: Sys, id: Id, s: State) returns (ev: Event)
    requires Lone(st, y, id, s)
    ensures ev.Restart? && ev.now == 0 && Enabled(st, y, ev)
  {
    LoneActive(st, y, id, s);
    assert Elements([id]) == {id};
    ev := Restart([id], LoneListed(st, id, s), 0);
  }

  lemma Renew(st: Settings, id: Id, w: seq<State>) returns (evs: seq<Event>)
    requires Usable(st) && id != "" && AllowedWalk(st.cfg, w)
    ensures IsRunOf(st, evs) && Renewed(st, StateAfter(st, evs), id, w[|w| - 1])
  {
    evs := Drive(st, id, w);
    var y := StateAfter(st, evs);
    RunsKeepBase(st, evs);
    var ev := LoneRestart(st, y, id, w[|w| - 1]);
    RestartRenews(st, y, id, w[|w| - 1], ev.keys, ev.listed);
    evs := Extend(st, evs, ev);
  }

  // ---------- a slot leaks ----------

  /** The sweep that rebuilds the heap finds the task long past its deadline. */
  function Late(st: Settings): Time {
    DefaultTimeout(st.defaultTimeout) + TWO_63
  }

  lemma SweepFindsTask(st: Settings, y: Sys, id: Id, s: State, r: Time)
    requires Lone(st, y, id, s) && y.stale && y.store.db[id].archivedAt.None?
    ensures var d := DefaultTimeout(st.defaultTimeout);
      SweepStarted(st, y, r, r).heap == multiset{HeapEntry(if d < r then r else d, id)}
  {
    assert FreshHeap(y.store.db, r) == {EntryFor(y.store.db, id, r)};
  }

  lemma LoneLeaks(st: Settings, y: Sys, z: Sys, id: Id, s: State, ts: seq<Time>)
    requires Base(st, y) && Renewed(st, y, id, s) && LeakyRetry(st.cfg, s)
    requires z.store == y.store && z.lives == y.lives && z.sem == y.sem && z.inflight == y.inflight
    requires |ts| == 4 && ts[0] == Late(st)
    ensures !SlotsBound(Retried(st, z, y.store.db[id], ts))
  {
    FewerTasksKeepBase(st, y, z);
    RetryLeaksExactlyIntoTerminal(st, z, id, ts);
  }

  /** What the round does with the only entry of a task that can retry. */
  lemma LonePop(st: Settings, y: Sys, e: HeapEntry, ts: seq<Time>)
    requires y.heap == multiset{e} && y.clock == e.deadline && Readings(y.clock, ts)
    requires e.id in y.store.db && e.id != "" && TimedOut(y.store.db[e.id], e.deadline)
    requires var t := y.store.db[e.id];
      && t.state != "" && t.state in st.cfg.states && st.cfg.states[t.state].autoRetry
      && t.retryCount < st.cfg.states[t.state].maxRetries
    ensures CanPop(y, e, e.deadline, ts)
    ensures Popped(st, y, e, e.deadline, ts) == Retried(st, y.(heap := multiset{}, clock := ts[3]), y.store.db[e.id], ts)
  {
    assert multiset{e} - multiset{e} == multiset{};
  }

  lemma Steady(t: Time) returns (ts: seq<Time>)
    ensures Readings(t, ts) && ts[0] == t
  {
    ts := [t, t, t, t];
  }

  /** The sweep and its round, after which the slot of the task is left over. */
  lemma LateSweep(st: Settings, y: Sys, id: Id, s: State, ts: seq<Time>)
    requires Base(st, y) && Renewed(st, y, id, s) && LeakyRetry(st.cfg, s) && id != "" && s != ""
    requires Readings(Late(st), ts) && ts[0] == Late(st)
    ensures var z, e := SweepStarted(st, y, Late(st), Late(st)), HeapEntry(Late(st), id);
      CanPop(z, e, Late(st), ts) && !SlotsBound(Popped(st, z, e, Late(st), ts))
  {
    var z := SweepStarted(st, y, Late(st), Late(st));
    SweepFindsTask(st, y, id, s, Late(st));
    LonePop(st, z, HeapEntry(Late(st), id), ts);
    LoneLeaks(st, y, z.(heap := multiset{}, clock := ts[3]), id, s, ts);
  }

  /** A retry into a terminal state that a task can get to leaves a slot without a task in some run. */
  lemma LeakyRetryLeaks(st: Settings, w: seq<State>) returns (evs: seq<Event>)
    requires Usable(st) && AllowedWalk(st.cfg, w) && LeakyRetry(st.cfg, w[|w| - 1])
    ensures IsRunOf(st, evs) && !SlotsBound(StateAfter(st, evs))
  {
    var s, d := w[|w| - 1], Late(st);
    assert Transition(s, st.cfg.RetryTarget(s), true) in st.cfg.transitions;
    var ts := Steady(d);
    evs := Renew(st, "t", w);
    RunsKeepBase(st, evs);
    LateSweep(st, StateAfter(st, evs), "t", s, ts);
    evs := Extend(st, evs, SweepStart(d, d));
    evs := Extend(st, evs, Pop(HeapEntry(d, "t"), d, ts));
  }

  /**
   * Slots leak in some run if and only if some state that a task can get into has a timeout retry
   * into a terminal state.
   */
  lemma SlotsLeakExactly(st: Settings)
    requires Usable(st)
    ensures (forall evs :: IsRunOf(st, evs) ==> SlotsBound(StateAfter(st, evs))) <==> RetriesStayOpen(st.cfg)
  {
    if RetriesStayOpen(st.cfg) {
      forall evs | IsRunOf(st, evs) ensures SlotsBound(StateAfter(st, evs)) {
        SlotsNeverLeak(st, evs);
      }
    } else {
      var s :| Reached(st.cfg, s) && LeakyRetry(st.cfg, s);
      var w :| AllowedWalk(st.cfg, w) && w[|w| - 1] == s;
      var evs := LeakyRetryLeaks(st, w);
    }
  }

  // ---------- the limit is exceeded ----------

  /** Names that were not used before: longer than all those used. */
  function Name(n: nat): Id {
    seq(n + 2, _ => 'b')
  }

  /** `sem` slots are taken while n tasks are active; one more task has ended in state s. */
  ghost predicate Overloaded(y: Sys, s: State, sem: nat, n: nat) {
    && y.clock == 0 && y.sem == sem && y.inflight == 0 && Active(y) == n
    && "a" in y.store.db && y.store.db["a"].state == s
    && forall id :: id in y.lives || id in y.store.db ==> |id| <= n + 1
  }

  lemma AdmitOne(st: Settings, y: Sys, s: State, n: nat)
    requires Overloaded(y, s, 0, n)
    ensures Enabled(st, Acquired(y), Create(Spec(Name(n), 0, None), STILL))
    ensures Overloaded(Admitted(st, Acquired(y), Spec(Name(n), 0, None), STILL), s, 1, n + 1)
  {
    var spec, y' := Spec(Name(n), 0, None), Acquired(y);
    assert |Name(n)| == n + 2;
    CreateActive(st, y', spec, STILL);
    CreationWrites(st.cfg, y'.store, spec, 0, 0, st.maxHistory);
    assert |"a"| == 1;
  }

  lemma FreeOne(st: Settings, y: Sys, s: State, n: nat)
    requires Overloaded(y, s, 1, n) && st.cfg.IsTerminal(s) && s != ""
    ensures Overloaded(CommandHandled(st, y, Go("a", s, s), STILL), s, 0, n)
  {
    RepeatOnlyReleases(st, y, Go("a", s, s), STILL);
  }

  /** Repeating the last command to an ended task frees a slot every time. */
  lemma {:induction false} Overload(st: Settings, w: seq<State>, n: nat) returns (evs: seq<Event>)
    requires Usable(st) && AllowedWalk(st.cfg, w) && st.cfg.IsTerminal(w[|w| - 1])
    ensures IsRunOf(st, evs) && Overloaded(StateAfter(st, evs), w[|w| - 1], 0, n)
    decreases n
  {
    var s := w[|w| - 1];
    if n == 0 {
      evs := Renew(st, "a", w);
    } else {
      evs := Overload(st, w, n - 1);
      var y := StateAfter(st, evs);
      TerminalIsNamed(st, w);
      AdmitOne(st, y, s, n - 1);
      FreeOne(st, Admitted(st, Acquired(y), Spec(Name(n - 1), 0, None), STILL), s, n);
      evs := Extend(st, evs, Acquire);
      evs := Extend(st, evs, Create(Spec(Name(n - 1), 0, None), STILL));
      evs := Extend(st, evs, Receive(Go("a", s, s), STILL));
    }
  }

  lemma TerminalIsNamed(st: Settings, w: seq<State>)
    requires Usable(st) && AllowedWalk(st.cfg, w) && st.cfg.IsTerminal(w[|w| - 1])
    ensures w[|w| - 1] != ""
  {
    assert |w| > 1;
    assert Transition(w[|w| - 2], w[|w| - 1], true) in st.cfg.transitions;
  }

  ghost predicate LimitHolds(st: Settings) {
    forall evs :: IsRunOf(st, evs) ==> Active(StateAfter(st, evs)) <= st.maxConcurrent
  }

  /** No terminal state can be reached by allowed transitions. */
  ghost predicate NothingEnds(cfg: Config) {
    forall s :: Reached(cfg, s) ==> !cfg.IsTerminal(s)
  }

  /**
   * With closed terminal states and open retries, the concurrency limit holds in every run if and
   * only if no task can ever end: as soon as one can, repeated commands to it let any number of tasks
   * be active at once.
   */
  lemma LimitHoldsExactly(st: Settings)
    requires Usable(st) && TerminalsClosed(st.cfg) && RetriesStayOpen(st.cfg)
    ensures LimitHolds(st) <==> NothingEnds(st.cfg)
  {
    if NothingEnds(st.cfg) {
      forall evs | IsRunOf(st, evs) ensures Active(StateAfter(st, evs)) <= st.maxConcurrent {
        NothingRepeats(st, evs);
        SlotsMatchActiveTasks(st, evs, 0);
      }
    } else {
      var s :| Reached(st.cfg, s) && st.cfg.IsTerminal(s);
      EndingsBreakLimit(st, s);
    }
  }

  lemma EndingsBreakLimit(st: Settings, s: State)
    requires Usable(st) && Reached(st.cfg, s) && st.cfg.IsTerminal(s)
    ensures !LimitHolds(st)
  {
    var w :| AllowedWalk(st.cfg, w) && w[|w| - 1] == s;
    var evs := Overload(st, w, st.maxConcurrent + 1);
    assert Active(StateAfter(st, evs)) == st.maxConcurrent + 1;
  }

  lemma {:induction false} NothingRepeats(st: Settings, evs: seq<Event>)
    requires Runnable(st.cfg) && IsRunOf(st, evs) && NothingEnds(st.cfg)
    ensures CleanSince(st, evs, 0)
    decreases |evs|
  {
    if evs != [] {
      var pre := evs[..|evs| - 1];
      NothingRepeats(st, pre);
      RunsKeepBase(st, pre);
      var y := StateAfter(st, pre);
      forall id | id in y.store.db ensures !st.cfg.IsTerminal(y.store.db[id].state) {
        StateIsReached(st.cfg, st.maxHistory, y.store.db[id], y.lives[id]);
      }
    }
  }

  // ---------- the wait is too long ----------

  lemma LoneWake(st: Settings, heap: multiset<HeapEntry>, e: HeapEntry)
    requires heap == multiset{e} && e.deadline >= MIN_WAKE
    ensures IsWake(st, heap, 0, e.deadline)
  {
    assert e in heap;
  }

  /** If tasks may take longer than the check interval, some sweep of some run waits longer than that. */
  lemma WaitCanExceedInterval(st: Settings) returns (evs: seq<Event>, wait: int)
    requires Usable(st) && DefaultTimeout(st.defaultTimeout) > Max(st.checkInterval, MIN_WAKE)
    ensures IsRunOf(st, evs) && AmidSweep(evs, |evs|, 0)
    ensures IsWake(st, StateAfter(st, evs).heap, 0, wait) && wait > Max(st.checkInterval, MIN_WAKE)
  {
    wait := DefaultTimeout(st.defaultTimeout);
    evs := Begin(st, "t");
    var y := StateAfter(st, evs);
    SweepFindsTask(st, y, "t", st.cfg.initialState, 0);
    LoneWake(st, SweepStarted(st, y, 0, 0).heap, HeapEntry(wait, "t"));
    evs := Extend(st, evs, SweepStart(0, 0));
  }
}
