/**
 * The state-machine validator of pkg/task/sm_validator.go: which configurations it accepts and
 * what its verdict guarantees.
 */
module Validator {
  import opened StateMachine
  import opened Graphs
  import opened CycleSearch

  // ---------- the graph ----------

  /** Targets of the allowed transitions out of `s`, in configuration order. */
  function Targets(ts: seq<Transition>, s: State): seq<State> {
    if ts == [] then []
    else
      var t := ts[|ts| - 1];
      Targets(ts[..|ts| - 1], s) + (if t.allowed && t.from == s then [t.to] else [])
  }

  lemma TargetsSnoc(ts: seq<Transition>, n: nat, q: State)
    requires n < |ts|
    ensures Targets(ts[..n + 1], q) ==
      Targets(ts[..n], q) + (if ts[n].allowed && ts[n].from == q then [ts[n].to] else [])
  {
    assert ts[..n + 1][..n] == ts[..n];
  }

  lemma {:induction false} TargetsMeaning(ts: seq<Transition>, s: State, x: State)
    ensures x in Targets(ts, s) <==> Transition(s, x, true) in ts
  {
    if ts != [] {
      TargetsMeaning(ts[..|ts| - 1], s, x);
      assert ts == ts[..|ts| - 1] + [ts[|ts| - 1]];
    }
  }

  /** The implicit edge of an automatic retry, self-loops skipped. */
  function RetryEdge(cfg: Config, s: State): seq<State>
    requires s in cfg.states
  {
    if cfg.states[s].autoRetry && cfg.RetryTarget(s) != s then [cfg.RetryTarget(s)] else []
  }

  /** Edges of `s` once the first n transitions and the retry edges of `retried` are in. */
  function EdgesSoFar(cfg: Config, n: nat, retried: set<State>, s: State): seq<State>
    requires s in cfg.states && n <= |cfg.transitions|
  {
    Targets(cfg.transitions[..n], s) + (if s in retried then RetryEdge(cfg, s) else [])
  }

  function GraphSoFar(cfg: Config, n: nat, retried: set<State>): Graph
    requires n <= |cfg.transitions|
  {
    map s | s in cfg.states && EdgesSoFar(cfg, n, retried, s) != [] :: EdgesSoFar(cfg, n, retried, s)
  }

  /** The validator's graph: allowed transitions followed by the implicit retry edge. */
  function GraphOf(cfg: Config): Graph {
    GraphSoFar(cfg, |cfg.transitions|, cfg.states.Keys)
  }

  /**
   * The edges out of a declared state: its allowed transitions and, if it retries automatically, one
   * to the state the retry names, or to the initial state if it names none, unless that is the state
   * itself.
   */
  lemma GraphEdges(cfg: Config, u: State, v: State)
    ensures Edge(GraphOf(cfg), u, v) <==>
      && u in cfg.states
      && (|| Transition(u, v, true) in cfg.transitions
          || (cfg.states[u].autoRetry && v != u && cfg.states[u].retryToState == "" && v == cfg.initialState)
          || (cfg.states[u].autoRetry && v != u && cfg.states[u].retryToState != "" && v == cfg.states[u].retryToState))
  {
    assert cfg.transitions[..|cfg.transitions|] == cfg.transitions;
    TargetsMeaning(cfg.transitions, u, v);
  }

  // ---------- reachability ----------

  method ReachableStates(start: State, graph: Graph) returns (reachable: set<State>)
    ensures forall v :: v in reachable <==> Reaches(graph, start, v)
  {
    ghost var nodes := Nodes(graph) + {start};
    reachable := {start};
    var queue := [start];
    ReachesSelf(graph, start);
    while |queue| > 0
      invariant reachable <= nodes && start in reachable
      invariant forall v :: v in reachable ==> Reaches(graph, start, v)
      invariant forall v :: v in queue ==> v in reachable
      invariant forall u, v :: u in reachable && u !in queue && Edge(graph, u, v) ==> v in reachable
      decreases nodes - reachable, |queue|
    {
      var cur := queue[0];
      ghost var before := reachable;
      queue := queue[1..];
      ghost var rest := queue;
      var edges := Succ(graph, cur);
      for i := 0 to |edges|
        invariant before <= reachable <= nodes
        invariant forall v :: v in reachable ==> Reaches(graph, start, v)
        invariant forall v :: v in queue ==> v in reachable
        invariant forall u, v :: u in reachable && u !in queue && u != cur && Edge(graph, u, v) ==> v in reachable
        invariant forall j :: 0 <= j < i ==> edges[j] in reachable
        invariant reachable == before ==> queue == rest
      {
        var next := edges[i];
        assert Edge(graph, cur, next);
        if next !in reachable {
          ReachesStep(graph, start, cur, next);
          reachable := reachable + {next};
          queue := queue + [next];
        }
      }
    }
    forall v | Reaches(graph, start, v) ensures v in reachable {
      var p :| IsWalkBetween(graph, start, v, p);
      WalkStaysInside(graph, reachable, p);
      assert p[|p| - 1] in p;
    }
  }

  // ---------- reaching a terminal state ----------

  ghost predicate CanReach(g: Graph, terminals: set<State>, s: State) {
    exists t :: t in terminals && Reaches(g, s, t)
  }

  /** The depth-first search for a terminal state; `visited` is shared by all recursive calls. */
  class TerminalSearch {
    const graph: Graph
    const terminals: set<State>
    var visited: set<State>

    constructor (graph: Graph, terminals: set<State>)
      ensures this.graph == graph && this.terminals == terminals && visited == {}
    {
      this.graph, this.terminals, visited := graph, terminals, {};
    }

    ghost predicate Settled(u: State, seen: set<State>) {
      u !in terminals && forall v :: Edge(graph, u, v) ==> v in seen
    }

    /** A failed search leaves only non-terminal states behind, with all their successors visited. */
    method Dfs(s: State, path: seq<State>, ghost nodes: set<State>) returns (found: bool, p: seq<State>)
      requires Closed(graph, nodes) && s in nodes
      requires IsWalk(graph, path) && path[|path| - 1] == s
      modifies this
      ensures old(visited) <= visited <= old(visited) + nodes
      ensures found ==> path <= p && IsWalk(graph, p) && p[|p| - 1] in terminals
      ensures !found ==> p == path && s in visited
      ensures !found ==> forall u :: u in visited && u !in old(visited) ==> Settled(u, visited)
      decreases nodes - visited
    {
      if s in visited {
        return false, path;
      }
      if s in terminals {
        return true, path;
      }
      visited := visited + {s};
      var edges := Succ(graph, s);
      for i := 0 to |edges|
        invariant old(visited) + {s} <= visited <= old(visited) + nodes
        invariant forall j :: 0 <= j < i ==> edges[j] in visited
        invariant forall u :: u in visited && u !in old(visited) && u != s ==> Settled(u, visited)
      {
        assert Edge(graph, s, edges[i]);
        ExtendWalk(graph, path, edges[i]);
        ghost var before := visited;
        var f, q := Dfs(edges[i], path + [edges[i]], nodes);
        if f {
          return true, q;
        }
        assert forall u :: u in before && Settled(u, before) ==> Settled(u, visited);
      }
      assert Settled(s, visited);
      return false, path;
    }
  }

  method CanReachTerminal(start: State, graph: Graph, terminals: set<State>) returns (found: bool, path: seq<State>)
    ensures found <==> CanReach(graph, terminals, start)
    ensures found ==> IsWalk(graph, path) && path[0] == start && path[|path| - 1] in terminals
    ensures !found ==> path == [start]
  {
    var search := new TerminalSearch(graph, terminals);
    NodesClosed(graph, start);
    found, path := search.Dfs(start, [start], Nodes(graph) + {start});
    if found {
      assert IsWalkBetween(graph, start, path[|path| - 1], path);
    } else {
      assert Closed(graph, search.visited) by {
        assert forall u :: u in search.visited ==> search.Settled(u, search.visited);
      }
      forall t | Reaches(graph, start, t) ensures t !in terminals {
        var p :| IsWalkBetween(graph, start, t, p);
        WalkStaysInside(graph, search.visited, p);
        assert p[|p| - 1] in p;
      }
    }
  }

  // ---------- the verdict ----------

  datatype Verdict = Accepted | Rejected(reason: string)

  /** Checks 1 and 2 of the validator: everything named is declared. */
  predicate NamesDeclared(cfg: Config) {
    && cfg.initialState != "" && cfg.initialState in cfg.states
    && cfg.terminalStates != []
    && (forall s :: s in cfg.terminalStates ==> s in cfg.states)
    && (forall t :: t in cfg.transitions && t.allowed ==> t.from in cfg.states && t.to in cfg.states)
    && RetriesDeclared(cfg)
  }

  /** A retry that names no state goes to the initial one. */
  predicate RetriesDeclared(cfg: Config) {
    forall s :: s in cfg.states && cfg.states[s].autoRetry ==>
      if cfg.states[s].retryToState == "" then cfg.initialState in cfg.states else cfg.states[s].retryToState in cfg.states
  }

  function TerminalSet(cfg: Config): set<State> {
    set s | s in cfg.terminalStates
  }

  predicate HasTerminal(cfg: Config, c: seq<State>) {
    exists i :: 0 <= i < |c| && cfg.IsTerminal(c[i])
  }

  ghost function ReportedCycles(cfg: Config): seq<seq<State>> {
    Unique(SearchFrom(GraphOf(cfg), cfg.initialState).cycles)
  }

  ghost predicate AllReachable(cfg: Config) {
    forall s :: s in cfg.states ==> Reaches(GraphOf(cfg), cfg.initialState, s)
  }

  ghost predicate AllCanFinish(cfg: Config) {
    forall s :: s in cfg.states && !cfg.IsTerminal(s) ==> CanReach(GraphOf(cfg), TerminalSet(cfg), s)
  }

  ghost predicate Accepts(cfg: Config) {
    && NamesDeclared(cfg)
    && AllReachable(cfg)
    && AllCanFinish(cfg)
    && forall c :: c in ReportedCycles(cfg) ==> HasTerminal(cfg, c)
  }

  lemma TransitionAddsEdge(cfg: Config, i: nat, s: State)
    requires i < |cfg.transitions| && s in cfg.states
    ensures var t := cfg.transitions[i];
      EdgesSoFar(cfg, i + 1, {}, s) ==
        if t.allowed && t.from == s then EdgesSoFar(cfg, i, {}, s) + [t.to] else EdgesSoFar(cfg, i, {}, s)
  {
    TargetsSnoc(cfg.transitions, i, s);
  }

  lemma TransitionAdds(cfg: Config, i: nat)
    requires i < |cfg.transitions|
    ensures var t := cfg.transitions[i]; var g := GraphSoFar(cfg, i, {});
      GraphSoFar(cfg, i + 1, {}) ==
        if t.allowed && t.from in cfg.states then g[t.from := Succ(g, t.from) + [t.to]] else g
  {
    var t := cfg.transitions[i];
    forall s | s in cfg.states
      ensures EdgesSoFar(cfg, i + 1, {}, s) ==
        if t.allowed && t.from == s then EdgesSoFar(cfg, i, {}, s) + [t.to] else EdgesSoFar(cfg, i, {}, s)
    {
      TransitionAddsEdge(cfg, i, s);
    }
    EdgesGiveGraph(cfg, i, i + 1, t);
  }

  lemma EdgesGiveGraph(cfg: Config, i: nat, j: nat, t: Transition)
    requires i <= |cfg.transitions| && j <= |cfg.transitions|
    requires forall s :: s in cfg.states ==>
      EdgesSoFar(cfg, j, {}, s) ==
        if t.allowed && t.from == s then EdgesSoFar(cfg, i, {}, s) + [t.to] else EdgesSoFar(cfg, i, {}, s)
    ensures var g := GraphSoFar(cfg, i, {});
      GraphSoFar(cfg, j, {}) == if t.allowed && t.from in cfg.states then g[t.from := Succ(g, t.from) + [t.to]] else g
  {
  }

  lemma RetryAdds(cfg: Config, retried: set<State>, name: State)
    requires name in cfg.states && name !in retried
    ensures var n := |cfg.transitions|; var g := GraphSoFar(cfg, n, retried);
      GraphSoFar(cfg, n, retried + {name}) ==
        if RetryEdge(cfg, name) != [] then g[name := Succ(g, name) + RetryEdge(cfg, name)] else g
  {
    var n := |cfg.transitions|;
    assert EdgesSoFar(cfg, n, retried + {name}, name) == EdgesSoFar(cfg, n, retried, name) + RetryEdge(cfg, name);
    forall s | s in cfg.states && s != name
      ensures EdgesSoFar(cfg, n, retried + {name}, s) == EdgesSoFar(cfg, n, retried, s)
    {
    }
  }

  method BuildGraph(cfg: Config) returns (graph: Graph, verdict: Verdict)
    ensures verdict == Accepted <==>
      && (forall t :: t in cfg.transitions && t.allowed ==> t.from in cfg.states && t.to in cfg.states)
      && RetriesDeclared(cfg)
    ensures verdict == Accepted ==> graph == GraphOf(cfg)
  {
    graph := map[];
    for i := 0 to |cfg.transitions|
      invariant forall j :: 0 <= j < i && cfg.transitions[j].allowed ==>
        cfg.transitions[j].from in cfg.states && cfg.transitions[j].to in cfg.states
      invariant graph == GraphSoFar(cfg, i, {})
    {
      var t := cfg.transitions[i];
      TransitionAdds(cfg, i);
      assert t in cfg.transitions;
      if t.allowed {
        if t.from !in cfg.states {
          return graph, Rejected("transition from: state not defined in states");
        }
        if t.to !in cfg.states {
          return graph, Rejected("transition to: state not defined in states");
        }
        graph := graph[t.from := Succ(graph, t.from) + [t.to]];
      }
    }
    graph, verdict := AddRetryEdges(cfg, graph);
  }

  /** The second loop: implicit edges of the states that retry, in any order. */
  method AddRetryEdges(cfg: Config, allowed: Graph) returns (graph: Graph, verdict: Verdict)
    requires allowed == GraphSoFar(cfg, |cfg.transitions|, {})
    ensures verdict == Accepted <==> RetriesDeclared(cfg)
    ensures verdict == Accepted ==> graph == GraphOf(cfg)
  {
    graph := allowed;
    var todo := cfg.states.Keys;
    assert GraphSoFar(cfg, |cfg.transitions|, cfg.states.Keys - todo) == graph by {
      assert cfg.states.Keys - todo == {};
    }
    while todo != {}
      invariant todo <= cfg.states.Keys
      invariant forall s :: s in cfg.states && s !in todo && cfg.states[s].autoRetry ==> cfg.RetryTarget(s) in cfg.states
      invariant graph == GraphSoFar(cfg, |cfg.transitions|, cfg.states.Keys - todo)
    {
      var name :| name in todo;
      ghost var before := cfg.states.Keys - todo;
      todo := todo - {name};
      assert cfg.states.Keys - todo == before + {name};
      RetryAdds(cfg, before, name);
      if cfg.states[name].autoRetry {
        var target := cfg.RetryTarget(name);
        if target !in cfg.states {
          return graph, Rejected("auto_retry state: retry_to_state not defined in states");
        }
        if target != name {
          graph := graph[name := Succ(graph, name) + [target]];
        }
      }
    }
    assert cfg.states.Keys - {} == cfg.states.Keys;
    verdict := Accepted;
  }

  /** The validator; maps are walked in an arbitrary order, as Go does. */
  method Validate(cfg: Config) returns (verdict: Verdict)
    ensures verdict == Accepted <==> Accepts(cfg)
  {
    if cfg.initialState == "" {
      return Rejected("initial_state is required");
    }
    if cfg.initialState !in cfg.states {
      return Rejected("initial_state not defined in states");
    }
    if |cfg.terminalStates| == 0 {
      return Rejected("at least one terminal_state is required");
    }
    for i := 0 to |cfg.terminalStates|
      invariant forall j :: 0 <= j < i ==> cfg.terminalStates[j] in cfg.states
    {
      if cfg.terminalStates[i] !in cfg.states {
        return Rejected("terminal_state not defined in states");
      }
    }
    var graph, ok := BuildGraph(cfg);
    if ok != Accepted {
      return ok;
    }
    verdict := CheckReachability(cfg, graph);
    if verdict == Accepted {
      verdict := CheckCycles(cfg, graph);
    }
  }

  method CheckReachability(cfg: Config, graph: Graph) returns (verdict: Verdict)
    requires graph == GraphOf(cfg)
    ensures verdict == Accepted <==> AllReachable(cfg) && AllCanFinish(cfg)
  {
    var reachable := ReachableStates(cfg.initialState, graph);
    ReachesSelf(graph, cfg.initialState);
    var todo := cfg.states.Keys;
    while todo != {}
      invariant todo <= cfg.states.Keys
      invariant forall s :: s in cfg.states && s !in todo ==> Reaches(graph, cfg.initialState, s)
    {
      var name :| name in todo;
      todo := todo - {name};
      if name !in reachable && name != cfg.initialState {
        return Rejected("state is unreachable from initial state");
      }
    }
    var terminals := TerminalSet(cfg);
    todo := cfg.states.Keys;
    while todo != {}
      invariant todo <= cfg.states.Keys
      invariant forall s :: s in cfg.states && s !in todo && !cfg.IsTerminal(s) ==> CanReach(graph, terminals, s)
    {
      var name :| name in todo;
      todo := todo - {name};
      if name !in terminals {
        var canReach, path := CanReachTerminal(name, graph, terminals);
        if !canReach {
          return Rejected("non-terminal state cannot reach any terminal state");
        }
      }
    }
    verdict := Accepted;
  }

  method CheckCycles(cfg: Config, graph: Graph) returns (verdict: Verdict)
    requires graph == GraphOf(cfg)
    ensures verdict == Accepted <==> forall c :: c in ReportedCycles(cfg) ==> HasTerminal(cfg, c)
  {
    var cycles := FindCycles(cfg.initialState, graph);
    for k := 0 to |cycles|
      invariant forall j :: 0 <= j < k ==> HasTerminal(cfg, cycles[j])
    {
      var cycle := cycles[k];
      var allNonTerminal := true;
      for i := 0 to |cycle|
        invariant allNonTerminal && forall j :: 0 <= j < i ==> !cfg.IsTerminal(cycle[j])
      {
        if cfg.IsTerminal(cycle[i]) {
          allNonTerminal := false;
          break;
        }
      }
      if allNonTerminal {
        assert !HasTerminal(cfg, cycle) && cycle in cycles;
        return Rejected("infinite loop detected (no terminal state in cycle)");
      }
    }
    verdict := Accepted;
  }
}
