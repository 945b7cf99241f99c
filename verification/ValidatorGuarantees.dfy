/** What acceptance by the validator means for the graph, and where its cycle check falls short. */
module ValidatorGuarantees {
  import opened StateMachine
  import opened Graphs
  import opened Sequences
  import opened CycleSearch
  import opened Validator

  predicate NoBlanks(cfg: Config) {
    forall s :: s in cfg.states ==> ' ' !in s
  }

  /** No edge of the validator's graph leads from a terminal to a non-terminal state. */
  ghost predicate TerminalsFinal(cfg: Config) {
    forall u, v :: cfg.IsTerminal(u) && Edge(GraphOf(cfg), u, v) ==> cfg.IsTerminal(v)
  }

  /** No non-terminal state and terminal state lie on a common cycle. */
  ghost predicate TerminalsApart(cfg: Config) {
    forall u, t :: cfg.IsTerminal(t) && Reaches(GraphOf(cfg), u, t) && Reaches(GraphOf(cfg), t, u) ==> cfg.IsTerminal(u)
  }

  /** The documented promise: there is no loop without a terminal state. */
  ghost predicate NoEndlessLoop(cfg: Config) {
    forall c :: IsCycle(GraphOf(cfg), c) ==> HasTerminal(cfg, c)
  }

  lemma GraphIsDeclared(cfg: Config)
    requires NamesDeclared(cfg)
    ensures Nodes(GraphOf(cfg)) <= cfg.states.Keys
  {
    forall u, v | Edge(GraphOf(cfg), u, v) ensures u in cfg.states && v in cfg.states {
      GraphEdges(cfg, u, v);
    }
    forall x | x in Nodes(GraphOf(cfg)) ensures x in cfg.states {
      if x !in GraphOf(cfg) {
        var u :| u in GraphOf(cfg) && x in GraphOf(cfg)[u];
        assert Edge(GraphOf(cfg), u, x);
      }
    }
  }

  /**
   * Any loop the validator lets through without a terminal state shares a state with a cycle of
   * the graph that does contain one, so the two are mutually reachable.
   */
  lemma MissedLoopMeetsTerminal(cfg: Config, c: seq<State>)
    requires Accepts(cfg) && NoBlanks(cfg)
    requires IsCycle(GraphOf(cfg), c) && !HasTerminal(cfg, c)
    ensures exists u, t :: u in c && cfg.IsTerminal(t) && Reaches(GraphOf(cfg), u, t) && Reaches(GraphOf(cfg), t, u)
  {
    var g := GraphOf(cfg);
    GraphIsDeclared(cfg);
    CycleInNodes(g, c);
    assert c[0] in c;
    EveryCycleIsTouched(g, cfg.initialState, c);
    var r, u :| r in ReportedCycles(cfg) && IsSimpleCycle(g, r) && u in r && u in c;
    assert HasTerminal(cfg, r);
    var i :| 0 <= i < |r| && cfg.IsTerminal(r[i]);
    CycleMutuallyReachable(g, r, u, r[i]);
    CycleMutuallyReachable(g, r, r[i], u);
  }

  /** Terminal states without a way out are one way to have them apart. */
  lemma FinalIsApart(cfg: Config)
    requires TerminalsFinal(cfg)
    ensures TerminalsApart(cfg)
  {
    var g := GraphOf(cfg);
    forall u, t | cfg.IsTerminal(t) && Reaches(g, u, t) && Reaches(g, t, u) ensures cfg.IsTerminal(u) {
      var p :| IsWalkBetween(g, t, u, p);
      assert p[|p| - 1] in p;
      WalkStaysInside(g, TerminalSet(cfg), p);
    }
  }

  /**
   * If no non-terminal state shares a cycle with a terminal one, acceptance does exclude every loop
   * without a terminal state.
   */
  lemma AcceptedHasNoEndlessLoop(cfg: Config)
    requires Accepts(cfg) && NoBlanks(cfg) && TerminalsApart(cfg)
    ensures NoEndlessLoop(cfg)
  {
    var g := GraphOf(cfg);
    forall c | IsCycle(g, c) ensures HasTerminal(cfg, c) {
      if !HasTerminal(cfg, c) {
        MissedLoopMeetsTerminal(cfg, c);
      }
    }
  }

  /** Under the same two conditions the verdict is exact: nothing sound is refused either. */
  lemma VerdictIsExact(cfg: Config)
    requires NoBlanks(cfg) && TerminalsApart(cfg)
    ensures Accepts(cfg) <==>
      NamesDeclared(cfg) && AllReachable(cfg) && AllCanFinish(cfg) && NoEndlessLoop(cfg)
  {
    if Accepts(cfg) {
      AcceptedHasNoEndlessLoop(cfg);
    } else if NamesDeclared(cfg) && AllReachable(cfg) && AllCanFinish(cfg) && NoEndlessLoop(cfg) {
      SoundIsAccepted(cfg);
    }
  }

  /** Whatever the names and terminal edges, a configuration without endless loops is never refused for one. */
  lemma SoundIsAccepted(cfg: Config)
    requires NamesDeclared(cfg) && AllReachable(cfg) && AllCanFinish(cfg) && NoEndlessLoop(cfg)
    ensures Accepts(cfg)
  {
    forall c | c in ReportedCycles(cfg) ensures HasTerminal(cfg, c) {
      ReportedAreCycles(GraphOf(cfg), cfg.initialState, c);
    }
  }

  lemma NonTerminalWalkIsSimple(cfg: Config, p: seq<State>)
    requires NoEndlessLoop(cfg) && IsWalk(GraphOf(cfg), p) && !HasTerminal(cfg, p)
    ensures Distinct(p)
  {
    forall i, j | 0 <= i < j < |p| ensures p[i] != p[j] {
      if p[i] == p[j] {
        RepeatGivesCycle(GraphOf(cfg), p, i, j);
      }
    }
  }

  /** A walk through non-terminal states of an accepted configuration is shorter than the number of states. */
  lemma NonTerminalWalkIsShort(cfg: Config, p: seq<State>)
    requires Accepts(cfg) && NoBlanks(cfg) && TerminalsApart(cfg)
    requires IsWalk(GraphOf(cfg), p) && p[0] in cfg.states && !HasTerminal(cfg, p)
    ensures |p| < |cfg.states|
  {
    var g := GraphOf(cfg);
    AcceptedHasNoEndlessLoop(cfg);
    NonTerminalWalkIsSimple(cfg, p);
    GraphIsDeclared(cfg);
    NodesClosed(g, p[0]);
    WalkStaysInside(g, Nodes(g) + {p[0]}, p);
    var rest := cfg.states.Keys - TerminalSet(cfg);
    DistinctFits(p, rest);
    assert cfg.terminalStates[0] in TerminalSet(cfg);
    assert rest < cfg.states.Keys;
    StrictlySmaller(rest, cfg.states.Keys);
  }

  // ---------- where the promise fails ----------

  const Plain := StateConfig(false, 0, "")

  predicate AllPlain(cfg: Config) {
    forall s :: s in cfg.states ==> cfg.states[s] == Plain
  }

  lemma PlainEdges(cfg: Config, q: State)
    requires AllPlain(cfg) && q in cfg.states
    ensures Succ(GraphOf(cfg), q) == Targets(cfg.transitions, q)
  {
    assert cfg.transitions[..|cfg.transitions|] == cfg.transitions;
  }

  /** Exactly the transitions at positions i and j leave `q`, seen over the first n of them. */
  lemma {:induction false} TargetsAt(ts: seq<Transition>, n: nat, q: State, i: nat, j: nat)
    requires n <= |ts| && i <= j < |ts|
    requires forall k :: 0 <= k < n ==> ((ts[k].allowed && ts[k].from == q) <==> (k == i || k == j))
    ensures Targets(ts[..n], q) ==
      if n <= i then [] else if i == j || n <= j then [ts[i].to] else [ts[i].to, ts[j].to]
  {
    if n > 0 {
      TargetsAt(ts, n - 1, q, i, j);
      TargetsSnoc(ts, n - 1, q);
    }
  }

  lemma EdgesAt(cfg: Config, q: State, i: nat, j: nat)
    requires AllPlain(cfg) && q in cfg.states && i <= j < |cfg.transitions|
    requires forall k :: 0 <= k < |cfg.transitions| ==>
      ((cfg.transitions[k].allowed && cfg.transitions[k].from == q) <==> (k == i || k == j))
    ensures var ts := cfg.transitions;
      Succ(GraphOf(cfg), q) == if i == j then [ts[i].to] else [ts[i].to, ts[j].to]
  {
    var ts := cfg.transitions;
    PlainEdges(cfg, q);
    TargetsAt(ts, |ts|, q, i, j);
    assert ts[..|ts|] == ts;
  }

  lemma InNodes(g: Graph, nodes: set<State>, q: State)
    requires nodes >= Nodes(g) && Succ(g, q) != []
    ensures q in nodes
  {
  }

  lemma ExploreOne(g: Graph, nodes: set<State>, x: State, stack: seq<State>, d: Search)
    requires Closed(g, nodes) && x in nodes
    ensures Explore(g, nodes, [x], stack, d) == Follow(g, nodes, x, stack, d)
  {
    assert [x][1..] == [] && [x][0] == x;
  }

  lemma ExploreTwo(g: Graph, nodes: set<State>, x: State, y: State, stack: seq<State>, d: Search)
    requires Closed(g, nodes) && x in nodes && y in nodes
    ensures Explore(g, nodes, [x, y], stack, d) == Follow(g, nodes, y, stack, Follow(g, nodes, x, stack, d))
  {
    assert [x, y][1..] == [y] && [x, y][0] == x;
    ExploreOne(g, nodes, y, stack, Follow(g, nodes, x, stack, d));
  }

  /** A state with one edge. */
  lemma VisitOne(g: Graph, nodes: set<State>, s: State, x: State, stack: seq<State>, d: Search)
    requires Closed(g, nodes) && s in nodes && s !in stack && s !in d.done && Succ(g, s) == [x]
    ensures x in nodes
    ensures var e := Follow(g, nodes, x, stack + [s], d);
      Visit(g, nodes, s, stack, d) == e.(done := e.done + [s])
  {
    assert Edge(g, s, x);
    ExploreOne(g, nodes, x, stack + [s], d);
  }

  /** A state with two edges. */
  lemma VisitTwo(g: Graph, nodes: set<State>, s: State, x: State, y: State, stack: seq<State>, d: Search)
    requires Closed(g, nodes) && s in nodes && s !in stack && s !in d.done && Succ(g, s) == [x, y]
    ensures x in nodes && y in nodes
    ensures var e := Follow(g, nodes, y, stack + [s], Follow(g, nodes, x, stack + [s], d));
      Visit(g, nodes, s, stack, d) == e.(done := e.done + [s])
  {
    assert [x, y][0] == x && [x, y][1] == y;
    assert Edge(g, s, x) && Edge(g, s, y);
    ExploreTwo(g, nodes, x, y, stack + [s], d);
  }

  /** t is terminal but leads back; v and u form a loop without it. */
  function Shortcut(v: State, t: State, u: State, first: State, second: State): Config {
    Config(v, [t], map[v := Plain, t := Plain, u := Plain],
           [Transition(v, first, true), Transition(v, second, true),
            Transition(t, u, true), Transition(u, v, true)])
  }

  ghost predicate ShortcutGraph(g: Graph, v: State, t: State, u: State, first: State, second: State) {
    && v != t && t != u && u != v && {first, second} == {t, u}
    && Succ(g, v) == [first, second] && Succ(g, t) == [u] && Succ(g, u) == [v]
  }

  lemma ShortcutGraphOf(v: State, t: State, u: State, first: State, second: State)
    requires v != t && t != u && u != v && {first, second} == {t, u}
    ensures ShortcutGraph(GraphOf(Shortcut(v, t, u, first, second)), v, t, u, first, second)
  {
    var cfg := Shortcut(v, t, u, first, second);
    EdgesAt(cfg, v, 0, 1);
    EdgesAt(cfg, t, 2, 2);
    EdgesAt(cfg, u, 3, 3);
  }

  /** Everything but the cycle check holds of these configurations, and they do loop. */
  lemma ShortcutLoops(v: State, t: State, u: State, first: State, second: State)
    requires v != t && t != u && u != v && {first, second} == {t, u} && v != ""
    ensures var cfg := Shortcut(v, t, u, first, second);
      NamesDeclared(cfg) && AllReachable(cfg) && AllCanFinish(cfg) && !NoEndlessLoop(cfg)
  {
    var cfg := Shortcut(v, t, u, first, second);
    var g := GraphOf(cfg);
    ShortcutGraphOf(v, t, u, first, second);
    ShortcutReaches(g, v, t, u, first, second);
    assert t in TerminalSet(cfg);
    assert !HasTerminal(cfg, [v, u]);
  }

  lemma ShortcutReaches(g: Graph, v: State, t: State, u: State, first: State, second: State)
    requires ShortcutGraph(g, v, t, u, first, second)
    ensures Reaches(g, v, v) && Reaches(g, v, t) && Reaches(g, v, u) && Reaches(g, u, t) && IsCycle(g, [v, u])
  {
    assert first in [first, second] && second in [first, second];
    ReachesSelf(g, v);
    ReachesStep(g, v, v, t);
    ReachesStep(g, v, v, u);
    ReachesSelf(g, u);
    ReachesStep(g, u, u, v);
    ReachesStep(g, u, v, t);
  }

  /** With the edge to t first, the search goes round through t and never sees the short loop. */
  lemma SearchThroughTerminal(g: Graph, v: State, t: State, u: State)
    requires ShortcutGraph(g, v, t, u, t, u)
    ensures SearchFrom(g, v).cycles == [Normalize([v, t, u])]
  {
    var nodes, none := Nodes(g) + {v}, Search([], []);
    NodesClosed(g, v);
    InNodes(g, nodes, t);
    InNodes(g, nodes, u);
    assert Loop([v, t, u], v) == [v, t, u] by {
      assert [v, t][..1] == [v] && Loop([v, t], v) == [v] + [t];
      assert [v, t, u][..2] == [v, t] && Loop([v, t, u], v) == Loop([v, t], v) + [u];
    }
    assert [v, t] + [u] == [v, t, u] && [v] + [t] == [v, t] && [] + [v] == [v];
    VisitOne(g, nodes, u, v, [v, t], none);
    VisitOne(g, nodes, t, u, [v], none);
    VisitTwo(g, nodes, v, t, u, [], none);
  }

  /** With the edge to u first, the short loop is recorded. */
  lemma SearchThroughLoop(g: Graph, v: State, t: State, u: State)
    requires ShortcutGraph(g, v, t, u, u, t)
    ensures SearchFrom(g, v).cycles == [Normalize([v, u])]
  {
    var nodes, none := Nodes(g) + {v}, Search([], []);
    var found := Search([u], [Normalize([v, u])]);
    NodesClosed(g, v);
    InNodes(g, nodes, t);
    InNodes(g, nodes, u);
    assert Loop([v, u], v) == [v, u] by { assert [v, u][..1] == [v]; }
    assert [v] + [u] == [v, u] && [v] + [t] == [v, t] && [] + [v] == [v];
    assert Visit(g, nodes, u, [v], none) == found by {
      VisitOne(g, nodes, u, v, [v], none);
    }
    assert Visit(g, nodes, t, [v], found) == Search([u, t], found.cycles) by {
      VisitOne(g, nodes, t, u, [v], found);
    }
    VisitTwo(g, nodes, v, u, t, [], none);
  }

  lemma UniqueOfOne(c: seq<State>)
    ensures Unique([c]) == [c]
  {
    assert [c][..0] == [];
  }

  lemma AcceptsThroughTerminal(v: State, t: State, u: State)
    requires v != t && t != u && u != v && v != ""
    ensures Accepts(Shortcut(v, t, u, t, u))
  {
    var cfg := Shortcut(v, t, u, t, u);
    ShortcutLoops(v, t, u, t, u);
    ShortcutGraphOf(v, t, u, t, u);
    SearchThroughTerminal(GraphOf(cfg), v, t, u);
    OneCycleAccepted(cfg, [v, t, u], 1);
  }

  /** All checks but the last pass, and the one recorded cycle contains a terminal state. */
  lemma OneCycleAccepted(cfg: Config, raw: seq<State>, k: nat)
    requires NamesDeclared(cfg) && AllReachable(cfg) && AllCanFinish(cfg)
    requires SearchFrom(GraphOf(cfg), cfg.initialState).cycles == [Normalize(raw)]
    requires k < |raw| && cfg.IsTerminal(raw[k])
    ensures Accepts(cfg)
  {
    UniqueOfOne(Normalize(raw));
    RotationHasTerminal(cfg, raw, k);
  }

  lemma RotationHasTerminal(cfg: Config, raw: seq<State>, k: nat)
    requires k < |raw| && cfg.IsTerminal(raw[k])
    ensures HasTerminal(cfg, Normalize(raw))
  {
    var c := Normalize(raw);
    NormalizeElements(raw);
    assert raw[k] in raw;
    var i :| 0 <= i < |c| && c[i] == raw[k];
  }

  lemma RefusesLoop(v: State, t: State, u: State)
    requires v != t && t != u && u != v
    ensures !Accepts(Shortcut(v, t, u, u, t))
  {
    var cfg := Shortcut(v, t, u, u, t);
    ShortcutGraphOf(v, t, u, u, t);
    SearchThroughLoop(GraphOf(cfg), v, t, u);
    var c := Normalize([v, u]);
    UniqueOfOne(c);
    assert !HasTerminal(cfg, c) by {
      NormalizeElements([v, u]);
      assert t !in [v, u];
    }
    assert c in ReportedCycles(cfg);
  }

  lemma ShortcutEdges(v: State, t: State, u: State, first: State, second: State, x: State, y: State)
    requires v != t && t != u && u != v && {first, second} == {t, u}
    ensures Edge(GraphOf(Shortcut(v, t, u, first, second)), x, y) <==>
      (x == v && y in {t, u}) || (x == t && y == u) || (x == u && y == v)
  {
    ShortcutGraphOf(v, t, u, first, second);
  }

  /**
   * The promise fails, and no condition on the edges alone could tell when: two configurations
   * with the same edges and the same endless loop, listed in a different order, are accepted
   * and refused. This holds for any three names.
   */
  lemma OrderDecidesVerdict(v: State, t: State, u: State)
    requires v != t && t != u && u != v && v != ""
    ensures var a, b := Shortcut(v, t, u, t, u), Shortcut(v, t, u, u, t);
      && (forall x, y :: Edge(GraphOf(a), x, y) <==> Edge(GraphOf(b), x, y))
      && !NoEndlessLoop(a) && !NoEndlessLoop(b) && Accepts(a) && !Accepts(b)
  {
    var a, b := Shortcut(v, t, u, t, u), Shortcut(v, t, u, u, t);
    forall x, y ensures Edge(GraphOf(a), x, y) <==> Edge(GraphOf(b), x, y) {
      ShortcutEdges(v, t, u, t, u, x, y);
      ShortcutEdges(v, t, u, u, t, x, y);
    }
    ShortcutLoops(v, t, u, t, u);
    ShortcutLoops(v, t, u, u, t);
    AcceptsThroughTerminal(v, t, u);
    RefusesLoop(v, t, u);
  }

  // ---------- blanks in names ----------

  /** Terminal states a and b loop; so does the non-terminal state x. */
  function TwoLoops(s: State, a: State, b: State, x: State): Config {
    Config(s, [a, b], map[s := Plain, a := Plain, b := Plain, x := Plain],
      [Transition(s, a, true), Transition(s, x, true), Transition(a, b, true),
       Transition(b, a, true), Transition(x, x, true), Transition(x, a, true)])
  }

  predicate FourNames(s: State, a: State, b: State, x: State) {
    s != a && s != b && s != x && a != b && a != x && b != x && s != ""
  }

  ghost predicate TwoLoopsGraph(g: Graph, s: State, a: State, b: State, x: State) {
    && FourNames(s, a, b, x)
    && Succ(g, s) == [a, x] && Succ(g, a) == [b] && Succ(g, b) == [a] && Succ(g, x) == [x, a]
  }

  lemma TwoLoopsGraphOf(s: State, a: State, b: State, x: State)
    requires FourNames(s, a, b, x)
    ensures TwoLoopsGraph(GraphOf(TwoLoops(s, a, b, x)), s, a, b, x)
  {
    var cfg := TwoLoops(s, a, b, x);
    EdgesAt(cfg, s, 0, 1);
    EdgesAt(cfg, a, 2, 2);
    EdgesAt(cfg, b, 3, 3);
    EdgesAt(cfg, x, 4, 5);
  }

  lemma SearchFirstLoop(g: Graph, nodes: set<State>, s: State, a: State, b: State, x: State)
    requires TwoLoopsGraph(g, s, a, b, x) && Closed(g, nodes) && {s, a, b, x} <= nodes
    ensures Visit(g, nodes, a, [s], Search([], [])) == Search([b, a], [Normalize([a, b])])
  {
    var none := Search([], []);
    assert Loop([s, a, b], a) == [a, b] by {
      assert [s, a, b][..2] == [s, a] && Loop([s, a, b], a) == Loop([s, a], a) + [b];
    }
    assert [s, a] + [b] == [s, a, b] && [s] + [a] == [s, a];
    VisitOne(g, nodes, b, a, [s, a], none);
    assert Visit(g, nodes, b, [s, a], none) == Search([b], [Normalize([a, b])]);
    VisitOne(g, nodes, a, b, [s], none);
  }

  lemma SearchSecondLoop(g: Graph, nodes: set<State>, s: State, a: State, b: State, x: State, c: seq<State>)
    requires TwoLoopsGraph(g, s, a, b, x) && Closed(g, nodes) && {s, a, b, x} <= nodes
    ensures Visit(g, nodes, x, [s], Search([b, a], [c])) == Search([b, a, x], [c, Normalize([x])])
  {
    var mid := Search([b, a], [c]);
    assert Loop([s, x], x) == [x];
    assert [s] + [x] == [s, x];
    VisitTwo(g, nodes, x, x, a, [s], mid);
    assert Follow(g, nodes, x, [s, x], mid) == Search([b, a], [c, Normalize([x])]);
  }

  lemma SearchTwoLoops(g: Graph, s: State, a: State, b: State, x: State)
    requires TwoLoopsGraph(g, s, a, b, x)
    ensures SearchFrom(g, s).cycles == [Normalize([a, b]), Normalize([x])]
  {
    var nodes, none := Nodes(g) + {s}, Search([], []);
    NodesClosed(g, s);
    InNodes(g, nodes, a);
    InNodes(g, nodes, b);
    InNodes(g, nodes, x);
    SearchFirstLoop(g, nodes, s, a, b, x);
    SearchSecondLoop(g, nodes, s, a, b, x, Normalize([a, b]));
    assert [] + [s] == [s];
    VisitTwo(g, nodes, s, a, x, [], none);
  }

  lemma TwoLoopsReachable(g: Graph, s: State, a: State, b: State, x: State)
    requires TwoLoopsGraph(g, s, a, b, x)
    ensures Reaches(g, s, s) && Reaches(g, s, a) && Reaches(g, s, b) && Reaches(g, s, x) && Reaches(g, x, a)
    ensures IsCycle(g, [x])
  {
    assert a in [a, x] && x in [a, x] && x in [x, a] && a in [x, a];
    ReachesSelf(g, s);
    ReachesStep(g, s, s, a);
    ReachesStep(g, s, s, x);
    ReachesStep(g, s, a, b);
    ReachesSelf(g, x);
    ReachesStep(g, x, x, a);
  }

  lemma TwoLoopsDeclared(s: State, a: State, b: State, x: State)
    requires FourNames(s, a, b, x)
    ensures NamesDeclared(TwoLoops(s, a, b, x))
  {
  }

  lemma TwoLoopsFinal(s: State, a: State, b: State, x: State)
    requires FourNames(s, a, b, x)
    ensures TerminalsFinal(TwoLoops(s, a, b, x))
  {
    TwoLoopsGraphOf(s, a, b, x);
  }

  lemma TwoLoopsSound(s: State, a: State, b: State, x: State)
    requires FourNames(s, a, b, x)
    ensures var cfg := TwoLoops(s, a, b, x); AllReachable(cfg) && AllCanFinish(cfg) && !NoEndlessLoop(cfg)
  {
    var cfg := TwoLoops(s, a, b, x);
    TwoLoopsGraphOf(s, a, b, x);
    TwoLoopsReachable(GraphOf(cfg), s, a, b, x);
    assert a in TerminalSet(cfg);
    assert !HasTerminal(cfg, [x]);
  }

  lemma BlankNormalized()
    ensures Normalize(["a", "b"]) == ["a", "b"] && Normalize(["a b"]) == ["a b"]
  {
    assert MinIndex(["a", "b"], 1) == 0;
    assert !NameLess("b", "a");
    assert Rotate(["a", "b"], 0) == ["a", "b"];
  }

  lemma BlankUnique(c1: seq<State>, c2: seq<State>)
    requires c1 == ["a", "b"] && c2 == ["a b"]
    ensures Unique([c1, c2]) == [c1]
  {
    assert ["a", "b"][1..] == ["b"];
    assert Key(c1) == "[" + ("a" + " " + "b") + "]" == Key(c2);
    assert [c1, c2][..1] == [c1];
    UniqueOfOne(c1);
    assert [c1][0] == c1;
  }

  lemma TwoLoopsAccepted(s: State, a: State, b: State, x: State)
    requires FourNames(s, a, b, x)
    requires Unique([Normalize([a, b]), Normalize([x])]) == [[a, b]]
    ensures Accepts(TwoLoops(s, a, b, x))
  {
    var cfg := TwoLoops(s, a, b, x);
    TwoLoopsGraphOf(s, a, b, x);
    SearchTwoLoops(GraphOf(cfg), s, a, b, x);
    TwoLoopsDeclared(s, a, b, x);
    TwoLoopsSound(s, a, b, x);
    assert cfg.IsTerminal([a, b][0]);
  }

  /** Blanks in names are the other way to lose a loop: both loops print as [a b], so one is dropped. */
  lemma BlankHidesLoop()
    ensures var cfg := TwoLoops("s", "a", "b", "a b");
      Accepts(cfg) && TerminalsFinal(cfg) && !NoEndlessLoop(cfg)
  {
    BlankNormalized();
    BlankUnique(["a", "b"], ["a b"]);
    TwoLoopsAccepted("s", "a", "b", "a b");
    TwoLoopsFinal("s", "a", "b", "a b");
    TwoLoopsSound("s", "a", "b", "a b");
  }
}
