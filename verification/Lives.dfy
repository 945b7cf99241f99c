/**
 * The life of one task: its complete history, every content ever stored for it and its committed
 * timeout retries, and what every write keeps about them.
 */
module Lives {
  import opened StateMachine
  import opened Graphs
  import opened StateIndex
  import opened Tasks
  import opened Engine
  import opened Validator
  import opened ValidatorGuarantees

  /** The untrimmed history, every stored version, and the number of committed timeout retries. */
  datatype Life = Life(full: seq<Record>, log: seq<Task>, retries: nat)

  // ---------- history ----------

  ghost predicate Chains(h: seq<Record>) {
    forall i :: 0 < i < |h| ==> h[i - 1].to == h[i].from
  }

  /** Exactly the k records ending at i have the target of record i. */
  ghost predicate IsRun(h: seq<Record>, i: nat, k: int)
    requires i < |h|
  {
    && 1 <= k <= i + 1
    && (forall j :: i - k < j <= i ==> h[j].to == h[i].to)
    && (i - k >= 0 ==> h[i - k].to != h[i].to)
  }

  /** Each record's attempt is the length of the run of equal targets ending there. */
  ghost predicate AttemptsCount(h: seq<Record>) {
    forall i :: 0 <= i < |h| ==> IsRun(h, i, h[i].attempt)
  }

  ghost predicate HistoryInv(t: Task, full: seq<Record>, max: int) {
    && full != [] && t.history == Trim(full, max)
    && Chains(full) && full[|full| - 1].to == t.state
    && AttemptsCount(full)
  }

  lemma RunExtends(h: seq<Record>, r: Record, i: nat, k: int)
    requires i < |h| && IsRun(h, i, k)
    ensures IsRun(h + [r], i, k)
  {
  }

  lemma AppendCounts(h: seq<Record>, r: Record)
    requires AttemptsCount(h) && r.attempt == NextAttempt(h, r.to)
    ensures AttemptsCount(h + [r])
  {
    var h' := h + [r];
    forall i | 0 <= i < |h'| ensures IsRun(h', i, h'[i].attempt) {
      if i < |h| {
        RunExtends(h, r, i, h[i].attempt);
      } else if |h| > 0 {
        assert IsRun(h, |h| - 1, h[|h| - 1].attempt);
      }
    }
  }

  /** Trimming before or after appending makes no difference, and the last record is always kept. */
  lemma TrimAppend(full: seq<Record>, r: Record, max: int)
    ensures Trim(Trim(full, max) + [r], max) == Trim(full + [r], max)
    ensures full != [] ==> Trim(full, max) != [] && Trim(full, max)[|Trim(full, max)| - 1] == full[|full| - 1]
  {
  }

  lemma RecordKeepsHistory(t: Task, full: seq<Record>, to: State, actor: string, reason: string, now: Time, max: int)
    requires HistoryInv(t, full, max)
    ensures HistoryInv(Recorded(t, to, actor, reason, now, max), full + [NewRecord(t, to, actor, reason, now)], max)
  {
    var r := NewRecord(t, to, actor, reason, now);
    TrimAppend(full, r, max);
    AppendCounts(full, r);
  }

  /**
   * UpdateState calls every transition a first attempt, so it keeps the history right exactly when it
   * leads to another state; version, chain and last target are right either way.
   */
  lemma UpdateStateKeepsHistory(s: Store, id: Id, full: seq<Record>, to: State, now: Time, max: int)
    requires id in s.db && s.db[id].id == id && HistoryInv(s.db[id], full, max)
    ensures var t, t' := s.db[id], StateUpdated(s, id, to, now, max).0.db[id];
      var full' := full + [Record(t.state, to, now, "system", "", 1)];
      && t'.version == t.version + 1 && t'.history == Trim(full', max) && Chains(full') && t'.state == to
      && (HistoryInv(t', full', max) <==> to != t.state)
  {
    var t := s.db[id];
    var r := Record(t.state, to, now, "system", "", 1);
    TrimAppend(full, r, max);
    if to != t.state {
      AppendCounts(full, r);
    } else {
      FirstAttemptTwice(full, r);
    }
  }

  lemma FirstAttemptTwice(full: seq<Record>, r: Record)
    requires full != [] && full[|full| - 1].to == r.to && r.attempt == 1
    ensures !AttemptsCount(full + [r])
  {
    var full' := full + [r];
    assert full'[|full| - 1].to == r.to;
    assert !IsRun(full', |full|, full'[|full|].attempt);
  }

  // ---------- versions ----------

  /** Stored versions count up by one, the last one is current, and retry counts never go down. */
  ghost predicate LogInv(t: Task, log: seq<Task>) {
    && log != [] && log[|log| - 1] == t
    && (forall k :: 0 <= k < |log| ==> log[k].version == k && log[k].id == t.id)
    && (forall k :: 0 < k < |log| ==> log[k - 1].retryCount <= log[k].retryCount)
  }

  lemma AppendKeepsLog(t: Task, log: seq<Task>, t': Task)
    requires LogInv(t, log) && t'.version == t.version + 1 && t'.id == t.id && t.retryCount <= t'.retryCount
    ensures LogInv(t', log + [t'])
  {
  }

  lemma {:induction false} RetriesNeverDrop(t: Task, log: seq<Task>, i: nat, j: nat)
    requires LogInv(t, log) && i <= j < |log|
    ensures log[i].retryCount <= log[j].retryCount
    decreases j
  {
    if i < j {
      RetriesNeverDrop(t, log, i, j - 1);
      assert log[j - 1].retryCount <= log[j].retryCount;
    }
  }

  /**
   * No lost updates: a copy read at any earlier moment can be written back only if nothing was
   * written to the task since, so the copy is still the stored content.
   */
  lemma OnlyFreshCopiesAreAccepted(s: Store, t: Task, log: seq<Task>, k: nat, edited: Task, now: Time)
    requires t.id in s.db && s.db[t.id] == t && LogInv(t, log) && k < |log|
    requires edited.id == t.id && edited.version == log[k].version
    ensures Updated(s, edited, now).1 == Done <==> k == |log| - 1
    ensures Updated(s, edited, now).1 == Done ==> log[k] == t
    ensures Updated(s, edited, now).1 != Done ==> Updated(s, edited, now).0 == s
  {
  }

  // ---------- the rules of the state machine ----------

  predicate LegalRecord(cfg: Config, r: Record) {
    if r.from == r.to then r.reason == "retry count update" else cfg.IsAllowed(r.from, r.to)
  }

  ghost predicate RulesInv(cfg: Config, t: Task, full: seq<Record>) {
    && t.state in cfg.states
    && full != [] && full[0].to == cfg.initialState
    && (forall i :: 0 < i < |full| ==> LegalRecord(cfg, full[i]))
    && (t.archivedAt.Some? <==> cfg.IsTerminal(t.state))
  }

  ghost predicate RetryInv(cfg: Config, t: Task, retries: nat) {
    && t.retryCount == retries
    && (retries > 0 ==> exists s :: s in cfg.states && retries <= cfg.states[s].maxRetries)
  }

  ghost predicate LifeInv(cfg: Config, max: int, t: Task, life: Life) {
    && HistoryInv(t, life.full, max)
    && LogInv(t, life.log)
    && RulesInv(cfg, t, life.full)
    && RetryInv(cfg, t, life.retries)
  }

  // ---------- writes ----------

  /** A configuration the run model works with: accepted names, and tasks do not start out finished. */
  predicate Runnable(cfg: Config) {
    NamesDeclared(cfg) && !cfg.IsTerminal(cfg.initialState)
  }

  function CreationRecord(cfg: Config, t2: Time): Record {
    Record(PENDING, cfg.initialState, t2, "system", "task created", 1)
  }

  /** The task as creation leaves it. */
  function CreatedTask(cfg: Config, spec: Spec, t1: Time, t2: Time, max: int): Task {
    Bumped(Recorded(Initialized(BlankTask(spec), t1), cfg.initialState, "system", "task created", t2, max))
  }

  function CreationLife(cfg: Config, spec: Spec, t1: Time, t2: Time, max: int): Life {
    Life([CreationRecord(cfg, t2)], [Initialized(BlankTask(spec), t1), CreatedTask(cfg, spec, t1, t2, max)], 0)
  }

  lemma CreationWrites(cfg: Config, s: Store, spec: Spec, t1: Time, t2: Time, max: int)
    requires spec.id != ""
    ensures TaskCreated(cfg, s, spec, t1, t2, max).db == s.db[spec.id := CreatedTask(cfg, spec, t1, t2, max)]
    ensures CreatedTask(cfg, spec, t1, t2, max).timeoutAt == None
    ensures CreatedTask(cfg, spec, t1, t2, max).archivedAt == None
  {
  }

  lemma CreationGivesLife(cfg: Config, spec: Spec, t1: Time, t2: Time, max: int)
    requires Runnable(cfg) && spec.id != ""
    ensures LifeInv(cfg, max, CreatedTask(cfg, spec, t1, t2, max), CreationLife(cfg, spec, t1, t2, max))
  {
    var t, r := CreatedTask(cfg, spec, t1, t2, max), CreationRecord(cfg, t2);
    assert [] + [r] == [r] && Trim([r], max) == [r];
    assert t.history == [r];
    assert IsRun([r], 0, 1);
  }

  /** The life after a committed command; `retry` marks a timeout retry. */
  function CommandLife(cfg: Config, t: Task, life: Life, cmd: Command, now: Time, stamp: Time, max: int, retry: bool): Life {
    var c := ChangeFor(cfg, t, cmd, now);
    Life(life.full + [NewRecord(t, c.to, c.actor, c.reason, stamp)],
         life.log + [After(cfg, t, cmd, now, stamp, max)],
         life.retries + if retry then 1 else 0)
  }

  /** Only a timeout retry carries a retry count: one more than before, within the state's limit. */
  predicate RetryFits(cfg: Config, t: Task, cmd: Command, retry: bool) {
    if retry then
      && t.state in cfg.states && t.retryCount < cfg.states[t.state].maxRetries
      && cmd.setRetryCount == Some(t.retryCount + 1)
    else cmd.setRetryCount.None?
  }

  lemma CommandKeepsLife(cfg: Config, t: Task, life: Life, cmd: Command, now: Time, stamp: Time, max: int, retry: bool)
    requires Runnable(cfg) && LifeInv(cfg, max, t, life)
    requires Checked(cfg, t, cmd) == Done && Writes(t, cmd) && RetryFits(cfg, t, cmd, retry)
    ensures LifeInv(cfg, max, After(cfg, t, cmd, now, stamp, max), CommandLife(cfg, t, life, cmd, now, stamp, max, retry))
  {
    var c := ChangeFor(cfg, t, cmd, now);
    RecordKeepsHistory(t, life.full, c.to, c.actor, c.reason, stamp, max);
    AppendKeepsLog(t, life.log, After(cfg, t, cmd, now, stamp, max));
  }

  /** A write that changes neither state, history, archiving nor retries. */
  lemma QuietWriteKeepsLife(cfg: Config, max: int, t: Task, life: Life, t': Task)
    requires LifeInv(cfg, max, t, life)
    requires t'.version == t.version + 1 && t'.id == t.id && t'.state == t.state && t'.history == t.history
    requires t'.archivedAt == t.archivedAt && t'.retryCount == t.retryCount
    ensures LifeInv(cfg, max, t', life.(log := life.log + [t']))
  {
    AppendKeepsLog(t, life.log, t');
  }

  // ---------- bounded lives ----------

  /** The state changes among the first n records, not counting creation. */
  function Moves(full: seq<Record>, n: nat): nat
    requires n <= |full|
  {
    if n <= 1 then 0 else Moves(full, n - 1) + if full[n - 1].from != full[n - 1].to then 1 else 0
  }

  /** The states entered by the first n records, repetitions in place left out. */
  function Visited(full: seq<Record>, n: nat): seq<State>
    requires 0 < n <= |full|
  {
    if n == 1 then [full[0].to]
    else if full[n - 1].from != full[n - 1].to then Visited(full, n - 1) + [full[n - 1].to]
    else Visited(full, n - 1)
  }

  /** A walk from the initial state along allowed transitions, without staying in place. */
  ghost predicate AllowedWalk(cfg: Config, w: seq<State>) {
    w != [] && w[0] == cfg.initialState && forall i :: 0 < i < |w| ==> w[i - 1] != w[i] && cfg.IsAllowed(w[i - 1], w[i])
  }

  /** Allowed transitions lead from the initial state to `s`. */
  ghost predicate Reached(cfg: Config, s: State) {
    exists w :: AllowedWalk(cfg, w) && w[|w| - 1] == s
  }

  /** What a history of legal records starting in the initial state looks like. */
  ghost predicate LegalHistory(cfg: Config, full: seq<Record>) {
    && full != [] && Chains(full) && full[0].to == cfg.initialState
    && forall i :: 0 < i < |full| ==> LegalRecord(cfg, full[i])
  }

  lemma {:induction false} VisitedIsAllowed(cfg: Config, full: seq<Record>, n: nat)
    requires LegalHistory(cfg, full) && 0 < n <= |full|
    ensures var w := Visited(full, n);
      AllowedWalk(cfg, w) && w[|w| - 1] == full[n - 1].to && |w| == Moves(full, n) + 1
  {
    if n > 1 {
      VisitedIsAllowed(cfg, full, n - 1);
      assert full[n - 2].to == full[n - 1].from && LegalRecord(cfg, full[n - 1]);
    }
  }

  lemma {:induction false} VisitedStates(full: seq<Record>, n: nat, x: State)
    requires 0 < n <= |full| && x in Visited(full, n)
    ensures exists i :: 0 <= i < n && full[i].to == x
  {
    if n > 1 && x in Visited(full, n - 1) {
      VisitedStates(full, n - 1, x);
      var i :| 0 <= i < n - 1 && full[i].to == x;
      assert full[i].to == x;
    } else {
      assert full[n - 1].to == x;
    }
  }

  /** The states a history moves through form a walk of the validator's graph. */
  lemma VisitedIsWalk(cfg: Config, full: seq<Record>, n: nat)
    requires NamesDeclared(cfg) && LegalHistory(cfg, full) && 0 < n <= |full|
    ensures var w := Visited(full, n);
      && IsWalk(GraphOf(cfg), w) && w[0] == cfg.initialState && w[|w| - 1] == full[n - 1].to
      && |w| == Moves(full, n) + 1
  {
    VisitedIsAllowed(cfg, full, n);
    AllowedIsWalk(cfg, Visited(full, n));
  }

  lemma AllowedIsWalk(cfg: Config, w: seq<State>)
    requires NamesDeclared(cfg) && AllowedWalk(cfg, w)
    ensures IsWalk(GraphOf(cfg), w)
  {
    forall i | 0 <= i < |w| - 1 ensures Edge(GraphOf(cfg), w[i], w[i + 1]) {
      assert cfg.IsAllowed(w[i + 1 - 1], w[i + 1]);
      GraphEdges(cfg, w[i], w[i + 1]);
    }
  }

  /** A task is only ever in states that allowed transitions lead to. */
  lemma StateIsReached(cfg: Config, max: int, t: Task, life: Life)
    requires LifeInv(cfg, max, t, life)
    ensures Reached(cfg, t.state)
  {
    VisitedIsAllowed(cfg, life.full, |life.full|);
  }

  /**
   * In an accepted configuration whose terminal states share no cycle with others, a task changes its
   * state fewer times than there are states before it has reached a terminal state.
   */
  lemma LivesAreBounded(cfg: Config, t: Task, full: seq<Record>, n: nat)
    requires Accepts(cfg) && NoBlanks(cfg) && TerminalsApart(cfg)
    requires RulesInv(cfg, t, full) && Chains(full) && 0 < n <= |full|
    requires forall i :: 0 <= i < n - 1 ==> !cfg.IsTerminal(full[i].to)
    ensures Moves(full, n) < |cfg.states|
  {
    if n > 1 {
      VisitedIsWalk(cfg, full, n - 1);
      var w := Visited(full, n - 1);
      forall i | 0 <= i < |w| ensures !cfg.IsTerminal(w[i]) {
        VisitedStates(full, n - 1, w[i]);
      }
      NonTerminalWalkIsShort(cfg, w);
    }
  }
}
