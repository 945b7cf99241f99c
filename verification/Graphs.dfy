/** Walks, cycles and reachability in a finite directed graph of states. */
module Graphs {
  import opened StateMachine
  import opened Sequences

  /** Adjacency lists, as the validator builds them; a missing key means no edges. */
  type Graph = map<State, seq<State>>

  function Succ(g: Graph, s: State): seq<State> {
    if s in g then g[s] else []
  }

  predicate Edge(g: Graph, u: State, v: State) {
    v in Succ(g, u)
  }

  ghost predicate IsWalk(g: Graph, p: seq<State>) {
    && |p| > 0
    && forall i :: 0 <= i < |p| - 1 ==> Edge(g, p[i], p[i + 1])
  }

  ghost predicate IsWalkBetween(g: Graph, u: State, v: State, p: seq<State>) {
    IsWalk(g, p) && p[0] == u && p[|p| - 1] == v
  }

  ghost predicate Reaches(g: Graph, u: State, v: State) {
    exists p :: IsWalkBetween(g, u, v, p)
  }

  /** A closed walk: the last state has an edge back to the first. */
  ghost predicate IsCycle(g: Graph, c: seq<State>) {
    IsWalk(g, c) && Edge(g, c[|c| - 1], c[0])
  }

  /** Every state a graph mentions. */
  ghost function Nodes(g: Graph): set<State> {
    g.Keys + set u, v | u in g && v in g[u] :: v
  }

  ghost predicate Closed(g: Graph, S: set<State>) {
    forall u, v :: u in S && Edge(g, u, v) ==> v in S
  }

  lemma NodesClosed(g: Graph, s: State)
    ensures Closed(g, Nodes(g) + {s})
  {
  }

  lemma {:induction false} WalkStaysInside(g: Graph, S: set<State>, p: seq<State>)
    requires Closed(g, S) && IsWalk(g, p) && p[0] in S
    ensures forall x :: x in p ==> x in S
    decreases |p|
  {
    if |p| > 1 {
      var q := p[1..|p|];
      SubWalk(g, p, 1, |p|);
      assert Edge(g, p[0], p[0 + 1]);
      WalkStaysInside(g, S, q);
      assert p == [p[0]] + q;
    }
  }

  lemma ReachesSelf(g: Graph, u: State)
    ensures Reaches(g, u, u)
  {
    assert IsWalkBetween(g, u, u, [u]);
  }

  lemma ReachesStep(g: Graph, u: State, v: State, w: State)
    requires Reaches(g, u, v) && Edge(g, v, w)
    ensures Reaches(g, u, w)
  {
    var p :| IsWalkBetween(g, u, v, p);
    ExtendWalk(g, p, w);
    assert IsWalkBetween(g, u, w, p + [w]);
  }

  lemma ExtendWalk(g: Graph, p: seq<State>, w: State)
    requires IsWalk(g, p) && Edge(g, p[|p| - 1], w)
    ensures IsWalk(g, p + [w])
  {
    var q := p + [w];
    forall i | 0 <= i < |q| - 1 ensures Edge(g, q[i], q[i + 1]) {
      if i < |p| - 1 {
        assert q[i] == p[i] && q[i + 1] == p[i + 1];
      }
    }
  }

  lemma SubWalk(g: Graph, p: seq<State>, i: nat, j: nat)
    requires IsWalk(g, p) && i < j <= |p|
    ensures IsWalk(g, p[i..j])
  {
    var q := p[i..j];
    forall k | 0 <= k < |q| - 1 ensures Edge(g, q[k], q[k + 1]) {
      assert q[k] == p[i + k] && q[k + 1] == p[i + k + 1];
    }
  }

  lemma JoinWalks(g: Graph, p: seq<State>, q: seq<State>)
    requires IsWalk(g, p) && IsWalk(g, q) && Edge(g, p[|p| - 1], q[0])
    ensures IsWalk(g, p + q)
  {
    var r := p + q;
    forall i | 0 <= i < |r| - 1 ensures Edge(g, r[i], r[i + 1]) {
      if i < |p| - 1 {
        assert r[i] == p[i] && r[i + 1] == p[i + 1];
      } else if i >= |p| {
        assert r[i] == q[i - |p|] && r[i + 1] == q[i - |p| + 1];
      }
    }
  }

  /** Rotating a closed walk gives a closed walk. */
  lemma RotateCycle(g: Graph, c: seq<State>, k: nat)
    requires IsCycle(g, c) && k < |c|
    ensures IsCycle(g, Rotate(c, k))
  {
    if k > 0 {
      SubWalk(g, c, 0, k);
      SubWalk(g, c, k, |c|);
      assert c[..k] == c[0..k] && c[k..] == c[k..|c|];
      JoinWalks(g, c[k..], c[..k]);
      assert Edge(g, c[k - 1], c[k - 1 + 1]);
    } else {
      assert Rotate(c, 0) == c;
    }
  }

  /** Every state of a closed walk reaches every other one. */
  lemma CycleMutuallyReachable(g: Graph, c: seq<State>, u: State, v: State)
    requires IsCycle(g, c) && u in c && v in c
    ensures Reaches(g, u, v)
  {
    var k :| 0 <= k < |c| && c[k] == u;
    var r := Rotate(c, k);
    RotateCycle(g, c, k);
    RotateElements(c, k);
    var j :| 0 <= j < |r| && r[j] == v;
    SubWalk(g, r, 0, j + 1);
    assert IsWalkBetween(g, u, v, r[0..j + 1]);
  }

  /** A walk that repeats a state contains a closed walk among its own states. */
  lemma RepeatGivesCycle(g: Graph, p: seq<State>, i: nat, j: nat)
    requires IsWalk(g, p) && i < j < |p| && p[i] == p[j]
    ensures IsCycle(g, p[i..j]) && forall x :: x in p[i..j] ==> x in p
  {
    SubWalk(g, p, i, j);
    assert Edge(g, p[j - 1], p[j - 1 + 1]);
  }
}
