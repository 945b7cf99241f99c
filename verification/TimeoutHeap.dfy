/**
 * The deadline heap of pkg/task/timeout_checker.go: a binary min-heap kept in a sequence, with
 * the sift-up and sift-down steps of Go's container/heap.
 */
module TimeoutHeap {
  import opened Runs

  type Heap = seq<HeapEntry>

  function Parent(k: nat): nat
    requires k > 0
  {
    (k - 1) / 2
  }

  /** Parents at lo or above are no later than their children, among the first n entries. */
  ghost predicate OrderedFrom(h: Heap, lo: nat, n: nat)
    requires n <= |h|
  {
    forall k :: 0 < k < n && Parent(k) >= lo ==> h[Parent(k)].deadline <= h[k].deadline
  }

  ghost predicate IsHeap(h: Heap) {
    OrderedFrom(h, 0, |h|)
  }

  /** The first entry of a heap has the smallest deadline. */
  lemma {:induction false} TopIsSmallest(h: Heap, k: nat)
    requires IsHeap(h) && k < |h|
    ensures h[0].deadline <= h[k].deadline
  {
    if k > 0 {
      TopIsSmallest(h, Parent(k));
      assert Parent(k) >= 0;
    }
  }

  function Swap(h: Heap, i: nat, j: nat): Heap
    requires i < |h| && j < |h|
  {
    h[i := h[j]][j := h[i]]
  }

  lemma SwapElements(h: Heap, i: nat, j: nat)
    requires i < |h| && j < |h|
    ensures multiset(Swap(h, i, j)) == multiset(h)
  {
  }

  /** Ordered, except that the entry at j may be earlier than its parent. */
  ghost predicate UpInv(h: Heap, j: nat) {
    && j < |h|
    && (forall k :: 0 < k < |h| && k != j ==> h[Parent(k)].deadline <= h[k].deadline)
    && (forall k :: 0 < k < |h| && Parent(k) == j && j > 0 ==> h[Parent(j)].deadline <= h[k].deadline)
  }

  lemma UpStep(h: Heap, j: nat)
    requires UpInv(h, j) && j > 0 && h[j].deadline < h[Parent(j)].deadline
    ensures UpInv(Swap(h, Parent(j), j), Parent(j))
  {
    var p := Parent(j);
    var r := Swap(h, p, j);
    forall k | 0 < k < |r| && k != p ensures r[Parent(k)].deadline <= r[k].deadline {
      if k != j && Parent(k) == p {
        assert h[p].deadline <= h[k].deadline;
      } else if Parent(k) == j {
        assert h[p].deadline <= h[k].deadline;
      }
    }
    forall k | 0 < k < |r| && Parent(k) == p && p > 0 ensures r[Parent(p)].deadline <= r[k].deadline {
      assert h[Parent(p)].deadline <= h[p].deadline;
      assert k == j || h[p].deadline <= h[k].deadline;
    }
  }

  method Up(h0: Heap, j0: nat) returns (h: Heap)
    requires UpInv(h0, j0)
    ensures IsHeap(h) && multiset(h) == multiset(h0)
  {
    h := h0;
    var j := j0;
    while j > 0 && h[j].deadline < h[Parent(j)].deadline
      invariant UpInv(h, j) && multiset(h) == multiset(h0)
      decreases j
    {
      UpStep(h, j);
      SwapElements(h, Parent(j), j);
      h := Swap(h, Parent(j), j);
      j := Parent(j);
    }
  }

  /** Ordered from i0 on, except that the entry at i may be later than its children. */
  ghost predicate DownInv(h: Heap, i: nat, i0: nat, n: nat) {
    && i0 <= i && n <= |h|
    && (forall k :: 0 < k < n && Parent(k) >= i0 && Parent(k) != i ==> h[Parent(k)].deadline <= h[k].deadline)
    && (forall k :: 0 < k < n && Parent(k) == i && i > i0 && Parent(i) >= i0 ==> h[Parent(i)].deadline <= h[k].deadline)
  }

  lemma DownStep(h: Heap, i: nat, j: nat, i0: nat, n: nat)
    requires DownInv(h, i, i0, n) && 0 < j < n && Parent(j) == i && h[j].deadline < h[i].deadline
    requires forall k :: 0 < k < n && Parent(k) == i ==> h[j].deadline <= h[k].deadline
    ensures DownInv(Swap(h, i, j), j, i0, n)
  {
    var r := Swap(h, i, j);
    forall k | 0 < k < n && Parent(k) >= i0 && Parent(k) != j ensures r[Parent(k)].deadline <= r[k].deadline {
      if k == i {
        assert h[Parent(i)].deadline <= h[j].deadline;
      } else if Parent(k) == i {
        assert r[i] == h[j];
      } else {
        assert r[k] == h[k] && r[Parent(k)] == h[Parent(k)];
      }
    }
    forall k | 0 < k < n && Parent(k) == j ensures r[i].deadline <= r[k].deadline {
      assert r[k] == h[k] && h[j].deadline <= h[k].deadline;
    }
  }

  method SmallerChild(h: Heap, i: nat, n: nat) returns (j: nat)
    requires 2 * i + 1 < n <= |h|
    ensures i < j < n && Parent(j) == i && forall k :: 0 < k < n && Parent(k) == i ==> h[j].deadline <= h[k].deadline
  {
    j := 2 * i + 1;
    if j + 1 < n && h[j + 1].deadline < h[j].deadline {
      j := j + 1;
    }
    forall k | 0 < k < n && Parent(k) == i ensures h[j].deadline <= h[k].deadline {
      assert k == 2 * i + 1 || k == 2 * i + 2;
    }
  }

  /** Only entries before n move. */
  method Down(h0: Heap, i0: nat, n: nat) returns (h: Heap)
    requires i0 <= n <= |h0| && OrderedFrom(h0, i0 + 1, n)
    ensures |h| == |h0| && OrderedFrom(h, i0, n) && multiset(h) == multiset(h0)
    ensures h[n..] == h0[n..]
  {
    h := h0;
    var i := i0;
    while 2 * i + 1 < n
      invariant |h| == |h0| && multiset(h) == multiset(h0) && h[n..] == h0[n..]
      invariant DownInv(h, i, i0, n)
      decreases n - i
    {
      var j := SmallerChild(h, i, n);
      if h[j].deadline >= h[i].deadline {
        return;
      }
      DownStep(h, i, j, i0, n);
      SwapElements(h, i, j);
      h := Swap(h, i, j);
      i := j;
    }
  }

  method Push(h0: Heap, e: HeapEntry) returns (h: Heap)
    requires IsHeap(h0)
    ensures IsHeap(h) && multiset(h) == multiset(h0) + multiset{e}
  {
    h := h0 + [e];
    h := Up(h, |h0|);
  }

  method Pop(h0: Heap) returns (h: Heap, e: HeapEntry)
    requires IsHeap(h0) && |h0| > 0
    ensures IsHeap(h) && e == h0[0] && multiset(h) == multiset(h0) - multiset{e}
    ensures forall x :: x in multiset(h0) ==> e.deadline <= x.deadline
  {
    var n := |h0| - 1;
    SwapElements(h0, 0, n);
    h := Swap(h0, 0, n);
    assert OrderedFrom(h, 1, n);
    h := Down(h, 0, n);
    e := h[n];
    assert h[n..][0] == Swap(h0, 0, n)[n..][0];
    assert h == h[..n] + [e];
    h := h[..n];
    forall x | x in multiset(h0) ensures e.deadline <= x.deadline {
      var k :| 0 <= k < |h0| && h0[k] == x;
      TopIsSmallest(h0, k);
    }
  }

  method Init(h0: Heap) returns (h: Heap)
    ensures IsHeap(h) && multiset(h) == multiset(h0)
  {
    h := h0;
    var i := |h0| / 2;
    while i > 0
      invariant 0 <= i <= |h| == |h0| && OrderedFrom(h, i, |h|) && multiset(h) == multiset(h0)
    {
      i := i - 1;
      h := Down(h, i, |h|);
    }
  }
}
