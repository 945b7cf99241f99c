/**
 * Cycle detection of pkg/task/sm_validator.go: the three-colour depth-first search, the
 * rotation of each cycle it finds and the removal of duplicates.
 *
 * `Visit` and `Explore` give the search as functions of its state; `CycleFinder` is the code,
 * with the colour map, the path stack and the cycle list as fields.
 */
module CycleSearch {
  import opened StateMachine
  import opened Graphs
  import opened Sequences

  // ---------- order on names and rotation ----------

  /** Go's string order: first differing code unit decides, a proper prefix is smaller. */
  predicate NameLess(a: string, b: string) {
    if a == [] || b == [] then b != [] && a == []
    else a[0] < b[0] || (a[0] == b[0] && NameLess(a[1..], b[1..]))
  }

  lemma NameLessTransitive(a: string, b: string, c: string)
    requires NameLess(a, b) && NameLess(b, c)
    ensures NameLess(a, c)
  {
  }

  lemma NameLessTotal(a: string, b: string)
    ensures a == b || NameLess(a, b) || NameLess(b, a)
    ensures NameLess(a, b) ==> !NameLess(b, a) && a != b
  {
    if a != [] && b != [] && a[0] == b[0] {
      NameLessTotal(a[1..], b[1..]);
      assert a == [a[0]] + a[1..] && b == [b[0]] + b[1..];
    }
  }

  /** `c[k]` is the first smallest among the first n names of `c`. */
  ghost predicate IsFirstMin(c: seq<State>, n: nat, k: nat)
    requires k < n <= |c|
  {
    && (forall i :: 0 <= i < k ==> NameLess(c[k], c[i]))
    && (forall i :: k <= i < n ==> !NameLess(c[i], c[k]))
  }

  function MinIndex(c: seq<State>, n: nat): (k: nat)
    requires 0 < n <= |c|
    ensures k < n
  {
    if n == 1 then 0
    else
      var k := MinIndex(c, n - 1);
      if NameLess(c[n - 1], c[k]) then n - 1 else k
  }

  lemma {:induction false} MinIndexIsFirstMin(c: seq<State>, n: nat)
    requires 0 < n <= |c|
    ensures IsFirstMin(c, n, MinIndex(c, n))
  {
    NameLessTotal(c[n - 1], c[n - 1]);
    if n > 1 {
      MinIndexIsFirstMin(c, n - 1);
      var k := MinIndex(c, n - 1);
      if NameLess(c[n - 1], c[k]) {
        forall i | 0 <= i < n - 1 ensures NameLess(c[n - 1], c[i]) {
          NameLessTotal(c[i], c[k]);
          if NameLess(c[k], c[i]) { NameLessTransitive(c[n - 1], c[k], c[i]); }
        }
      }
    }
  }

  function Normalize(c: seq<State>): seq<State> {
    if c == [] then [] else Rotate(c, MinIndex(c, |c|))
  }

  /** Normalizing turns a cycle so that a smallest name comes first, and changes nothing else. */
  lemma NormalizeMeaning(c: seq<State>)
    requires c != []
    ensures exists k :: 0 <= k < |c| && Normalize(c) == Rotate(c, k)
    ensures forall i :: 0 <= i < |c| ==> !NameLess(c[i], Normalize(c)[0])
  {
    MinIndexIsFirstMin(c, |c|);
    var k := MinIndex(c, |c|);
    assert Normalize(c) == Rotate(c, k);
    forall i | 0 <= i < |c| ensures !NameLess(c[i], c[k]) {
      NameLessTotal(c[i], c[k]);
    }
  }

  method NormalizeCycle(cycle: seq<State>) returns (result: seq<State>)
    ensures result == Normalize(cycle)
  {
    if |cycle| == 0 {
      return cycle;
    }
    var minIdx := 0;
    for i := 1 to |cycle|
      invariant minIdx == MinIndex(cycle, i)
    {
      if NameLess(cycle[i], cycle[minIdx]) {
        minIdx := i;
      }
    }
    result := [];
    for i := 0 to |cycle|
      invariant result == Rotate(cycle, minIdx)[..i]
    {
      RotateAt(cycle, minIdx, i);
      result := result + [cycle[(minIdx + i) % |cycle|]];
    }
  }

  lemma RotateAt<T>(c: seq<T>, k: nat, i: nat)
    requires k < |c| && i < |c|
    ensures Rotate(c, k)[i] == c[(k + i) % |c|]
  {
    WrapsOnce(k + i, |c|);
  }

  lemma NormalizeElements(c: seq<State>)
    ensures forall x :: x in Normalize(c) <==> x in c
  {
    if c != [] {
      RotateElements(c, MinIndex(c, |c|));
    }
  }

  // ---------- duplicates ----------

  /** The text Go prints for a list of names with the %v verb. */
  function Key(c: seq<State>): string {
    "[" + Joined(c) + "]"
  }

  function Joined(c: seq<State>): string {
    if c == [] then "" else if |c| == 1 then c[0] else c[0] + " " + Joined(c[1..])
  }

  predicate Spaceless(c: seq<State>) {
    forall i :: 0 <= i < |c| ==> ' ' !in c[i]
  }

  lemma {:induction false} JoinedInjective(a: seq<State>, b: seq<State>)
    requires a != [] && b != [] && Spaceless(a) && Spaceless(b) && Joined(a) == Joined(b)
    ensures a == b
  {
    var t := Joined(a);
    assert |a| > 1 ==> t[|a[0]|] == ' ' && t[..|a[0]|] == a[0] && t[|a[0]| + 1..] == Joined(a[1..]);
    assert |b| > 1 ==> t[|b[0]|] == ' ' && t[..|b[0]|] == b[0] && t[|b[0]| + 1..] == Joined(b[1..]);
    if |a| > 1 && |b| > 1 {
      assert |a[0]| == |b[0]|;
      JoinedInjective(a[1..], b[1..]);
      assert a == [a[0]] + a[1..] && b == [b[0]] + b[1..];
    }
  }

  lemma KeyInjective(a: seq<State>, b: seq<State>)
    requires a != [] && b != [] && Spaceless(a) && Spaceless(b) && Key(a) == Key(b)
    ensures a == b
  {
    assert Key(a)[1..|Key(a)| - 1] == Joined(a) && Key(b)[1..|Key(b)| - 1] == Joined(b);
    JoinedInjective(a, b);
  }

  function Keys(cs: seq<seq<State>>): set<string> {
    set i | 0 <= i < |cs| :: Key(cs[i])
  }

  /** The list with every cycle dropped whose text already occurred. */
  function Unique(cs: seq<seq<State>>): seq<seq<State>> {
    if cs == [] then []
    else
      var rest := Unique(cs[..|cs| - 1]);
      var c := cs[|cs| - 1];
      if Key(c) in Keys(cs[..|cs| - 1]) then rest else rest + [c]
  }

  lemma KeysAppend(cs: seq<seq<State>>, c: seq<State>)
    ensures Keys(cs + [c]) == Keys(cs) + {Key(c)}
  {
    var all := cs + [c];
    assert all[|cs|] == c;
    assert forall j :: 0 <= j < |cs| ==> all[j] == cs[j];
  }

  /** Unique only drops cycles, and keeps one cycle for every text. */
  lemma {:induction false} UniqueMeaning(cs: seq<seq<State>>)
    ensures forall c :: c in Unique(cs) ==> c in cs
    ensures Keys(Unique(cs)) == Keys(cs)
    ensures |Unique(cs)| == |Keys(cs)|
  {
    if cs != [] {
      var pre, c := cs[..|cs| - 1], cs[|cs| - 1];
      UniqueMeaning(pre);
      assert cs == pre + [c];
      KeysAppend(pre, c);
      KeysAppend(Unique(pre), c);
    }
  }

  method UniqueCycles(cycles: seq<seq<State>>) returns (result: seq<seq<State>>)
    ensures result == Unique(cycles)
  {
    var seen: set<string> := {};
    result := [];
    for i := 0 to |cycles|
      invariant seen == Keys(cycles[..i])
      invariant result == Unique(cycles[..i])
    {
      var key := Key(cycles[i]);
      assert cycles[..i + 1][..i] == cycles[..i];
      assert cycles[..i + 1] == cycles[..i] + [cycles[i]];
      KeysAppend(cycles[..i], cycles[i]);
      if key !in seen {
        seen := seen + {key};
        result := result + [cycles[i]];
      }
    }
    assert cycles[..|cycles|] == cycles;
  }

  // ---------- the search ----------

  /** Finished states in finishing order, and the cycles found so far. */
  datatype Search = Search(done: seq<State>, cycles: seq<seq<State>>)

  /** The part of the path stack from `next` to the top. */
  function Loop(stack: seq<State>, next: State): seq<State>
    requires next in stack
  {
    var top := stack[|stack| - 1];
    if top == next then [next] else Loop(stack[..|stack| - 1], next) + [top]
  }

  ghost function Unseen(nodes: set<State>, stack: seq<State>, d: Search): set<State> {
    nodes - Elements(stack) - Elements(d.done)
  }

  /** The search from an unvisited state: colour it visiting, explore its edges, finish it. */
  ghost function Visit(g: Graph, nodes: set<State>, s: State, stack: seq<State>, d: Search): (r: Search)
    requires Closed(g, nodes) && s in Unseen(nodes, stack, d)
    ensures d.done <= r.done && d.cycles <= r.cycles
    decreases Unseen(nodes, stack, d), 0
  {
    assert s in stack + [s];
    assert forall x :: x in stack ==> x in stack + [s];
    assert Unseen(nodes, stack + [s], d) < Unseen(nodes, stack, d);
    assert forall x :: x in Succ(g, s) ==> Edge(g, s, x);
    var e := Explore(g, nodes, Succ(g, s), stack + [s], d);
    e.(done := e.done + [s])
  }

  /** The remaining edges of the state on top of the stack. */
  ghost function Explore(g: Graph, nodes: set<State>, succs: seq<State>, stack: seq<State>, d: Search): (r: Search)
    requires Closed(g, nodes) && forall x :: x in succs ==> x in nodes
    ensures d.done <= r.done && d.cycles <= r.cycles
    decreases Unseen(nodes, stack, d), 2 + |succs|
  {
    if succs == [] then d
    else
      var d' := Follow(g, nodes, succs[0], stack, d);
      assert Unseen(nodes, stack, d') <= Unseen(nodes, stack, d);
      Explore(g, nodes, succs[1..], stack, d')
  }

  /** One edge: descend into an unvisited state, record a cycle at a state being visited. */
  ghost function Follow(g: Graph, nodes: set<State>, next: State, stack: seq<State>, d: Search): (r: Search)
    requires Closed(g, nodes) && next in nodes
    ensures d.done <= r.done && d.cycles <= r.cycles
    decreases Unseen(nodes, stack, d), 1
  {
    if next in d.done then d
    else if next in stack then d.(cycles := d.cycles + [Normalize(Loop(stack, next))])
    else Visit(g, nodes, next, stack, d)
  }

  // ---------- what the search establishes ----------

  lemma {:induction false} LoopIsSuffix(stack: seq<State>, next: State) returns (i: nat)
    requires next in stack
    ensures i < |stack| && stack[i] == next && Loop(stack, next) == stack[i..]
  {
    var n := |stack| - 1;
    if stack[n] == next {
      i := n;
    } else {
      assert stack == stack[..n] + [stack[n]];
      i := LoopIsSuffix(stack[..n], next);
      assert stack[i..] == stack[..n][i..] + [stack[n]];
    }
  }

  lemma LoopIsSimpleCycle(g: Graph, stack: seq<State>, next: State)
    requires IsWalk(g, stack) && Distinct(stack) && next in stack && Edge(g, stack[|stack| - 1], next)
    ensures var l := Loop(stack, next);
      IsSimpleCycle(g, l) && next in l && stack[|stack| - 1] in l
  {
    var i := LoopIsSuffix(stack, next);
    SuffixIsSimpleCycle(g, stack, i);
  }

  lemma SuffixIsSimpleCycle(g: Graph, stack: seq<State>, i: nat)
    requires IsWalk(g, stack) && Distinct(stack) && i < |stack| && Edge(g, stack[|stack| - 1], stack[i])
    ensures IsSimpleCycle(g, stack[i..]) && stack[i] in stack[i..] && stack[|stack| - 1] in stack[i..]
  {
    var l := stack[i..|stack|];
    SubWalk(g, stack, i, |stack|);
    assert l == stack[i..];
    assert l[0] == stack[i] && l[|l| - 1] == stack[|stack| - 1];
    assert Distinct(l) by {
      forall j, k | 0 <= j < k < |l| ensures l[j] != l[k] {
        assert l[j] == stack[i + j] && l[k] == stack[i + k];
      }
    }
  }

  lemma NormalizeKeepsCycle(g: Graph, c: seq<State>)
    requires IsSimpleCycle(g, c)
    ensures IsSimpleCycle(g, Normalize(c)) && forall x :: x in Normalize(c) <==> x in c
  {
    var k := MinIndex(c, |c|);
    RotateCycle(g, c, k);
    RotateElements(c, k);
    RotateDistinct(c, k);
  }

  ghost predicate IsSimpleCycle(g: Graph, c: seq<State>) {
    IsCycle(g, c) && Distinct(c)
  }

  ghost predicate Together(cycles: seq<seq<State>>, u: State, v: State) {
    exists c :: c in cycles && u in c && v in c
  }

  /** Every edge out of a finished state leads to an earlier finished state or lies on a recorded cycle. */
  ghost predicate EdgesExplained(g: Graph, d: Search) {
    forall i, v :: 0 <= i < |d.done| && Edge(g, d.done[i], v) ==>
      v in d.done[..i] || Together(d.cycles, d.done[i], v)
  }

  ghost predicate SearchInv(g: Graph, stack: seq<State>, d: Search) {
    && Distinct(stack)
    && (stack != [] ==> IsWalk(g, stack))
    && (forall c :: c in d.cycles ==> IsSimpleCycle(g, c))
    && (forall u, v :: u in d.done && Edge(g, u, v) ==> v in d.done || v in stack)
    && EdgesExplained(g, d)
  }

  lemma TogetherGrows(a: seq<seq<State>>, b: seq<seq<State>>, u: State, v: State)
    requires a <= b && Together(a, u, v)
    ensures Together(b, u, v)
  {
    var c :| c in a && u in c && v in c;
    assert c in b;
  }

  lemma {:induction false} VisitInv(g: Graph, nodes: set<State>, s: State, stack: seq<State>, d: Search)
    requires Closed(g, nodes) && s in Unseen(nodes, stack, d) && SearchInv(g, stack, d)
    requires stack != [] ==> Edge(g, stack[|stack| - 1], s)
    ensures var r := Visit(g, nodes, s, stack, d); SearchInv(g, stack, r) && s in r.done
    decreases Unseen(nodes, stack, d), 0
  {
    var deeper := stack + [s];
    assert s in deeper;
    assert forall x :: x in stack ==> x in deeper;
    assert Unseen(nodes, deeper, d) < Unseen(nodes, stack, d);
    assert forall x :: x in Succ(g, s) ==> Edge(g, s, x);
    if stack != [] {
      ExtendWalk(g, stack, s);
    }
    ExploreInv(g, nodes, Succ(g, s), deeper, d);
    var e := Explore(g, nodes, Succ(g, s), deeper, d);
    FinishInv(g, s, stack, e);
  }

  lemma FinishInv(g: Graph, s: State, stack: seq<State>, e: Search)
    requires SearchInv(g, stack + [s], e)
    requires forall x :: x in Succ(g, s) ==> x in e.done || (x in stack + [s] && Together(e.cycles, s, x))
    ensures SearchInv(g, stack, e.(done := e.done + [s]))
  {
    var deeper := stack + [s];
    var r := e.(done := e.done + [s]);
    assert Distinct(stack) by {
      forall i, j | 0 <= i < j < |stack| ensures stack[i] != stack[j] {
        assert deeper[i] != deeper[j];
      }
    }
    if stack != [] {
      SubWalk(g, deeper, 0, |stack|);
      assert deeper[0..|stack|] == stack;
    }
    forall i, v | 0 <= i < |r.done| && Edge(g, r.done[i], v)
      ensures v in r.done[..i] || Together(r.cycles, r.done[i], v)
    {
      if i < |e.done| {
        assert r.done[..i] == e.done[..i] && r.done[i] == e.done[i];
      } else {
        assert r.done[..i] == e.done && v in Succ(g, s);
      }
    }
  }

  /** An edge from the top of the stack is accounted for. */
  ghost predicate Covered(stack: seq<State>, d: Search, x: State)
    requires stack != []
  {
    x in d.done || (x in stack && Together(d.cycles, stack[|stack| - 1], x))
  }

  lemma CoveredGrows(stack: seq<State>, d: Search, e: Search, x: State)
    requires stack != [] && d.done <= e.done && d.cycles <= e.cycles && Covered(stack, d, x)
    ensures Covered(stack, e, x)
  {
    if x !in d.done {
      TogetherGrows(d.cycles, e.cycles, stack[|stack| - 1], x);
    }
  }

  lemma {:induction false} ExploreInv(g: Graph, nodes: set<State>, succs: seq<State>, stack: seq<State>, d: Search)
    requires Closed(g, nodes) && (forall x :: x in succs ==> x in nodes) && SearchInv(g, stack, d)
    requires stack != [] && forall x :: x in succs ==> Edge(g, stack[|stack| - 1], x)
    ensures var r := Explore(g, nodes, succs, stack, d);
      SearchInv(g, stack, r) && forall x :: x in succs ==> Covered(stack, r, x)
    decreases Unseen(nodes, stack, d), 2 + |succs|
  {
    if succs != [] {
      var d' := Follow(g, nodes, succs[0], stack, d);
      assert Unseen(nodes, stack, d') <= Unseen(nodes, stack, d);
      assert succs[0] in succs;
      assert forall x :: x in succs[1..] ==> x in succs;
      FollowInv(g, nodes, succs[0], stack, d);
      ExploreInv(g, nodes, succs[1..], stack, d');
      CoveredGrows(stack, d', Explore(g, nodes, succs[1..], stack, d'), succs[0]);
      assert succs == [succs[0]] + succs[1..];
    }
  }

  lemma {:induction false} FollowInv(g: Graph, nodes: set<State>, next: State, stack: seq<State>, d: Search)
    requires Closed(g, nodes) && next in nodes && SearchInv(g, stack, d)
    requires stack != [] && Edge(g, stack[|stack| - 1], next)
    ensures var r := Follow(g, nodes, next, stack, d);
      SearchInv(g, stack, r) && Covered(stack, r, next)
    decreases Unseen(nodes, stack, d), 1
  {
    if next in d.done {
    } else if next in stack {
      RecordInv(g, next, stack, d);
    } else {
      VisitInv(g, nodes, next, stack, d);
    }
  }

  /** Recording the cycle of a back edge. */
  lemma RecordInv(g: Graph, next: State, stack: seq<State>, d: Search)
    requires SearchInv(g, stack, d) && stack != [] && next in stack && Edge(g, stack[|stack| - 1], next)
    ensures var r := d.(cycles := d.cycles + [Normalize(Loop(stack, next))]);
      SearchInv(g, stack, r) && Covered(stack, r, next)
  {
    var c := Normalize(Loop(stack, next));
    var r := d.(cycles := d.cycles + [c]);
    LoopIsSimpleCycle(g, stack, next);
    NormalizeKeepsCycle(g, Loop(stack, next));
    assert c in r.cycles;
    forall i, v | 0 <= i < |r.done| && Edge(g, r.done[i], v)
      ensures v in r.done[..i] || Together(r.cycles, r.done[i], v)
    {
      if v !in d.done[..i] { TogetherGrows(d.cycles, r.cycles, d.done[i], v); }
    }
  }

  // ---------- the code ----------

  datatype Colour = Unvisited | Visiting | Visited

  class CycleFinder {
    const graph: Graph
    var stateMap: map<State, Colour>
    var pathStack: seq<State>
    var cycles: seq<seq<State>>
    ghost var done: seq<State>

    constructor (graph: Graph)
      ensures this.graph == graph && Valid() && pathStack == [] && Progress() == Search([], [])
    {
      this.graph := graph;
      stateMap, pathStack, cycles, done := map[], [], [], [];
    }

    function ColourOf(s: State): Colour
      reads this
    {
      if s in stateMap then stateMap[s] else Unvisited
    }

    ghost predicate Valid()
      reads this
    {
      forall s :: (ColourOf(s) == Visiting <==> s in pathStack) && (ColourOf(s) == Visited <==> s in done)
    }

    ghost function Progress(): Search
      reads this
    {
      Search(done, cycles)
    }

    method Dfs(s: State, ghost nodes: set<State>)
      requires Valid() && Closed(graph, nodes) && s in Unseen(nodes, pathStack, Progress())
      modifies this
      ensures Valid() && pathStack == old(pathStack)
      ensures Progress() == old(Visit(graph, nodes, s, pathStack, Progress()))
      decreases Unseen(nodes, pathStack, Progress()), 0
    {
      ghost var start := Progress();
      ghost var below := pathStack;
      stateMap := stateMap[s := Visiting];
      pathStack := pathStack + [s];
      ghost var stack := pathStack;
      var edges := Succ(graph, s);
      assert forall x :: x in edges ==> Edge(graph, s, x);
      assert Unseen(nodes, stack, start) < Unseen(nodes, below, start);
      ghost var goal := Explore(graph, nodes, edges, stack, start);
      for i := 0 to |edges|
        invariant Valid() && pathStack == stack
        invariant start.done <= done
        invariant Explore(graph, nodes, edges[i..], stack, Progress()) == goal
      {
        assert edges[i..][1..] == edges[i + 1..] && edges[i..][0] == edges[i];
        assert Unseen(nodes, stack, Progress()) <= Unseen(nodes, stack, start);
        FollowEdge(edges[i], nodes);
      }
      Finish(s, below);
    }

    method FollowEdge(next: State, ghost nodes: set<State>)
      requires Valid() && Closed(graph, nodes) && next in nodes
      modifies this
      ensures Valid() && pathStack == old(pathStack)
      ensures Progress() == old(Follow(graph, nodes, next, pathStack, Progress()))
      decreases Unseen(nodes, pathStack, Progress()), 1
    {
      match ColourOf(next) {
        case Unvisited =>
          Dfs(next, nodes);
        case Visiting =>
          var cycle := ExtractLoop(next);
          cycle := NormalizeCycle(cycle);
          cycles := cycles + [cycle];
        case Visited =>
      }
    }

    method Finish(s: State, ghost below: seq<State>)
      requires Valid() && pathStack == below + [s] && s !in below
      modifies this
      ensures Valid() && pathStack == below
      ensures done == old(done) + [s] && cycles == old(cycles)
    {
      assert forall x :: x in pathStack <==> x in below || x == s;
      pathStack := pathStack[..|pathStack| - 1];
      stateMap := stateMap[s := Visited];
      done := done + [s];
      assert forall x :: x in done <==> x in old(done) || x == s;
    }

    /** Collects the path stack from the top down to `next`. */
    method ExtractLoop(next: State) returns (cycle: seq<State>)
      requires next in pathStack
      ensures cycle == Loop(pathStack, next)
    {
      cycle := [];
      var i := |pathStack| - 1;
      assert pathStack[..i + 1] == pathStack;
      while i >= 0
        invariant -1 <= i < |pathStack|
        invariant next in pathStack[..i + 1]
        invariant Loop(pathStack, next) == Loop(pathStack[..i + 1], next) + cycle
      {
        cycle := [pathStack[i]] + cycle;
        assert pathStack[..i + 1][..i] == pathStack[..i];
        assert pathStack[..i + 1] == pathStack[..i] + [pathStack[i]];
        if pathStack[i] == next {
          break;
        }
        i := i - 1;
      }
    }
  }

  ghost function SearchFrom(g: Graph, start: State): Search {
    NodesClosed(g, start);
    assert start !in Elements<State>([]);
    Visit(g, Nodes(g) + {start}, start, [], Search([], []))
  }

  method FindCycles(start: State, graph: Graph) returns (result: seq<seq<State>>)
    ensures result == Unique(SearchFrom(graph, start).cycles)
  {
    var finder := new CycleFinder(graph);
    NodesClosed(graph, start);
    finder.Dfs(start, Nodes(graph) + {start});
    result := UniqueCycles(finder.cycles);
  }

  // ---------- what the reported cycles mean ----------

  /** Every reported cycle is a real cycle of the graph through distinct states. */
  lemma ReportedAreCycles(g: Graph, start: State, c: seq<State>)
    requires c in Unique(SearchFrom(g, start).cycles)
    ensures IsSimpleCycle(g, c)
  {
    SearchComplete(g, start);
    UniqueMeaning(SearchFrom(g, start).cycles);
  }

  lemma SearchComplete(g: Graph, start: State)
    ensures SearchInv(g, [], SearchFrom(g, start))
    ensures forall v :: Reaches(g, start, v) ==> v in SearchFrom(g, start).done
  {
    NodesClosed(g, start);
    var nodes := Nodes(g) + {start};
    VisitInv(g, nodes, start, [], Search([], []));
    var r := SearchFrom(g, start);
    assert Closed(g, Elements(r.done));
    forall v | Reaches(g, start, v) ensures v in r.done {
      var p :| IsWalkBetween(g, start, v, p);
      WalkStaysInside(g, Elements(r.done), p);
      assert p[|p| - 1] in p;
    }
  }

  /** The first state of a closed walk to be finished has its outgoing edge on a recorded cycle. */
  lemma CycleLeavesTrace(g: Graph, start: State, c: seq<State>)
    requires IsCycle(g, c) && Reaches(g, start, c[0])
    ensures exists r, u :: r in SearchFrom(g, start).cycles && u in r && u in c
  {
    SearchComplete(g, start);
    var d := SearchFrom(g, start);
    CycleMutuallyReachable(g, c, c[0], c[0]);
    assert c[0] in d.done;
    var at :| 0 <= at < |d.done| && d.done[at] == c[0];
    var i := FirstIn(d.done, c, at);
    var k :| 0 <= k < |c| && c[k] == d.done[i];
    var v := if k + 1 < |c| then c[k + 1] else c[0];
    assert Edge(g, c[k], v) && v in c;
    assert v !in d.done[..i];
    var r :| r in d.cycles && d.done[i] in r && v in r;
  }

  lemma {:induction false} FirstIn(s: seq<State>, c: seq<State>, at: nat) returns (i: nat)
    requires at < |s| && s[at] in c
    ensures i < |s| && s[i] in c && forall x :: x in s[..i] ==> x !in c
  {
    if j :| 0 <= j < at && s[j] in c {
      i := FirstIn(s, c, j);
    } else {
      i := at;
    }
  }

  /**
   * Completeness: for every closed walk reachable from the start some reported cycle shares a
   * state with it. Names must not contain blanks, since duplicates are recognised by their text.
   */
  lemma EveryCycleIsTouched(g: Graph, start: State, c: seq<State>)
    requires IsCycle(g, c) && Reaches(g, start, c[0])
    requires forall s :: s in Nodes(g) ==> ' ' !in s
    ensures exists r, u :: r in Unique(SearchFrom(g, start).cycles) && IsSimpleCycle(g, r) && u in r && u in c
  {
    CycleLeavesTrace(g, start, c);
    SearchComplete(g, start);
    var all := SearchFrom(g, start).cycles;
    var r, u :| r in all && u in r && u in c;
    forall q | q in all ensures q != [] && Spaceless(q) {
      CycleInNodes(g, q);
    }
    SpacelessKept(all, r);
  }

  /** Without blanks, removing duplicates loses no cycle. */
  lemma SpacelessKept(all: seq<seq<State>>, r: seq<State>)
    requires r in all && forall q :: q in all ==> q != [] && Spaceless(q)
    ensures r in Unique(all)
  {
    UniqueMeaning(all);
    var at :| 0 <= at < |all| && all[at] == r;
    assert Key(all[at]) in Keys(all);
    var i :| 0 <= i < |Unique(all)| && Key(Unique(all)[i]) == Key(r);
    assert Unique(all)[i] in Unique(all);
    KeyInjective(Unique(all)[i], r);
  }

  lemma CycleInNodes(g: Graph, c: seq<State>)
    requires IsCycle(g, c)
    ensures forall x :: x in c ==> x in Nodes(g)
  {
    forall x | x in c ensures x in Nodes(g) {
      var i :| 0 <= i < |c| && c[i] == x;
      assert i < |c| - 1 ==> Edge(g, c[i], c[i + 1]);
    }
  }
}
