/**
 * What serializing the handlers buys: HandleTransitionCommand (pkg/task/state_machine_engine.go) reads
 * and checks a copy of the task, then commits in a second store access without checking again.
 */
module Races {
  import opened StateMachine
  import opened StateIndex
  import opened Tasks
  import opened Engine
  import opened Lives

  /** Archived exactly in terminal states. */
  predicate Settled(cfg: Config, t: Task) {
    t.archivedAt.Some? <==> cfg.IsTerminal(t.state)
  }

  /** A command that was checked against `copy` and asks for a change of state. */
  predicate Cleared(cfg: Config, copy: Task, cmd: Command) {
    Checked(cfg, copy, cmd) == Done && copy.state != cmd.target
  }

  /** The commit: the change was worked out from the copy, the store has moved on. */
  function CommittedLate(cfg: Config, s: Store, copy: Task, cmd: Command, now: Time, stamp: Time, max: int): Store {
    Transitioned(s, cmd.taskId, ChangeFor(cfg, copy, cmd, now), stamp, max).0
  }

  /** The change does not re-open a task that has ended since the copy was read. */
  predicate NothingReopened(cfg: Config, copy: Task, t: Task, target: State) {
    cfg.IsTerminal(target) || !cfg.IsTerminal(t.state) || cfg.IsTerminal(copy.state)
  }

  /**
   * A late commit keeps the index right, and the task archived exactly in terminal states, exactly
   * if it does not lead out of a terminal state that the task entered since the copy was read.
   */
  lemma LateCommitKeepsIndex(cfg: Config, s: Store, copy: Task, cmd: Command, now: Time, stamp: Time, max: int)
    requires Consistent(s) && cmd.taskId in s.db && Settled(cfg, s.db[cmd.taskId])
    requires Settled(cfg, copy) && Cleared(cfg, copy, cmd)
    ensures var s' := CommittedLate(cfg, s, copy, cmd, now, stamp, max);
      var safe := NothingReopened(cfg, copy, s.db[cmd.taskId], cmd.target);
      (Consistent(s') <==> safe) && (Settled(cfg, s'.db[cmd.taskId]) <==> safe)
  {
    TransitionKeepsIndex(s, cmd.taskId, ChangeFor(cfg, copy, cmd, now), stamp, max);
  }

  /** The record a late commit leaves starts from the state the task has by then. */
  lemma LateCommitRecord(cfg: Config, s: Store, copy: Task, cmd: Command, now: Time, stamp: Time, max: int)
    requires KeysMatch(s.db) && cmd.taskId in s.db && Cleared(cfg, copy, cmd) && cmd.message != "retry count update"
    ensures var t := s.db[cmd.taskId]; var h := CommittedLate(cfg, s, copy, cmd, now, stamp, max).db[cmd.taskId].history;
      && h != [] && h[|h| - 1].from == t.state && h[|h| - 1].to == cmd.target
      && (LegalRecord(cfg, h[|h| - 1]) <==> t.state != cmd.target && cfg.IsAllowed(t.state, cmd.target))
  {
    var t := s.db[cmd.taskId];
    var c := ChangeFor(cfg, copy, cmd, now);
    var r := NewRecord(t, c.to, c.actor, c.reason, stamp);
    TrimAppend(t.history + [r], r, max);
    assert (t.history + [r])[|t.history + [r]| - 1] == r;
  }

  /**
   * Two commands checked against the same copy and then both committed. The second record is legal
   * exactly if the second target differs from the first and may follow it; index and archiving stay
   * right exactly if the first command did not end the task or the second ends it as well.
   */
  lemma RacingCommands(cfg: Config, s: Store, a: Command, b: Command, now: Time, stamp: Time, max: int)
    requires Consistent(s) && a.taskId in s.db && b.taskId == a.taskId && s.db[a.taskId].archivedAt.None?
    requires Settled(cfg, s.db[a.taskId]) && Cleared(cfg, s.db[a.taskId], a) && Cleared(cfg, s.db[a.taskId], b)
    requires b.message != "retry count update"
    ensures var copy := s.db[a.taskId];
      var s1 := CommittedLate(cfg, s, copy, a, now, stamp, max);
      var s2 := CommittedLate(cfg, s1, copy, b, now, stamp, max);
      var t2, safe := s2.db[a.taskId], !cfg.IsTerminal(a.target) || cfg.IsTerminal(b.target);
      && (Consistent(s2) <==> safe) && (Settled(cfg, t2) <==> safe)
      && t2.history != [] && t2.history[|t2.history| - 1].from == a.target && t2.history[|t2.history| - 1].to == b.target
      && (LegalRecord(cfg, t2.history[|t2.history| - 1]) <==> a.target != b.target && cfg.IsAllowed(a.target, b.target))
  {
    var copy := s.db[a.taskId];
    var s1 := CommittedLate(cfg, s, copy, a, now, stamp, max);
    LateCommitKeepsIndex(cfg, s, copy, a, now, stamp, max);
    LateCommitKeepsIndex(cfg, s1, copy, b, now, stamp, max);
    LateCommitRecord(cfg, s1, copy, b, now, stamp, max);
  }
}
