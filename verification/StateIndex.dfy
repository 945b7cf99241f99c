/**
 * The secondary index of the task store (pkg/task/engine_store.go): for every state the
 * un-archived tasks in it, newest first.
 */
module StateIndex {
  import opened StateMachine
  import opened Sequences

  type Id = string
  type Time = int

  datatype IndexEntry = IndexEntry(id: Id, createdAt: Time)

  type Index = map<State, seq<IndexEntry>>

  /** What the index should mirror: state and creation time of every un-archived task. */
  datatype Slot = Slot(state: State, createdAt: Time)
  type Live = map<Id, Slot>

  function Bucket(ix: Index, s: State): seq<IndexEntry> {
    if s in ix then ix[s] else []
  }

  // ---------- buckets ----------

  predicate NewestFirst(es: seq<IndexEntry>) {
    forall i, j :: 0 <= i < j < |es| ==> es[i].createdAt >= es[j].createdAt
  }

  /** The first position whose entry is not newer than t. */
  function InsertAt(es: seq<IndexEntry>, t: Time): (p: nat)
    ensures p <= |es| && (forall i :: 0 <= i < p ==> es[i].createdAt > t) && (p < |es| ==> es[p].createdAt <= t)
  {
    if es == [] || es[0].createdAt <= t then 0 else 1 + InsertAt(es[1..], t)
  }

  lemma {:induction false} InsertAtIsUnique(es: seq<IndexEntry>, t: Time, p: nat)
    requires p <= |es| && (forall i :: 0 <= i < p ==> es[i].createdAt > t) && (p < |es| ==> es[p].createdAt <= t)
    ensures p == InsertAt(es, t)
  {
    if p > 0 {
      InsertAtIsUnique(es[1..], t, p - 1);
    }
  }

  function Insert(es: seq<IndexEntry>, e: IndexEntry): seq<IndexEntry> {
    var p := InsertAt(es, e.createdAt);
    es[..p] + [e] + es[p..]
  }

  /** Drops the first entry of the task. */
  function Without(es: seq<IndexEntry>, id: Id): (r: seq<IndexEntry>)
    ensures |r| <= |es|
  {
    if es == [] then [] else if es[0].id == id then es[1..] else [es[0]] + Without(es[1..], id)
  }

  lemma InsertFacts(es: seq<IndexEntry>, e: IndexEntry)
    requires NewestFirst(es)
    ensures NewestFirst(Insert(es, e)) && multiset(Insert(es, e)) == multiset(es) + multiset{e}
  {
    var p := InsertAt(es, e.createdAt);
    InsertElements(es, p, e);
    var r := Insert(es, e);
    forall i, j | 0 <= i < j < |r| ensures r[i].createdAt >= r[j].createdAt {
      if i < p && j > p { assert es[i].createdAt >= es[j - 1].createdAt; }
      if i >= p && j > p && p < |es| { assert es[p].createdAt >= es[j - 1].createdAt; }
    }
  }

  lemma {:induction false} WithoutCut(es: seq<IndexEntry>, id: Id) returns (k: nat)
    requires exists x :: x in es && x.id == id
    ensures k < |es| && es[k].id == id && Without(es, id) == es[..k] + es[k + 1..]
  {
    if es[0].id == id {
      k := 0;
    } else {
      assert es == [es[0]] + es[1..];
      k := WithoutCut(es[1..], id);
      k := k + 1;
      assert es[..k] == [es[0]] + es[1..][..k - 1];
    }
  }

  /** The entry dropped is the first one of the task. */
  lemma {:induction false} WithoutAt(es: seq<IndexEntry>, id: Id, i: nat)
    requires i <= |es| && (forall k :: 0 <= k < i ==> es[k].id != id) && (i < |es| ==> es[i].id == id)
    ensures Without(es, id) == if i < |es| then es[..i] + es[i + 1..] else es
  {
    if i > 0 {
      var rest := es[1..];
      forall k | 0 <= k < i - 1 ensures rest[k].id != id {
        assert rest[k] == es[k + 1];
      }
      WithoutAt(rest, id, i - 1);
      CutCons(es, i);
    }
  }

  lemma CutCons(es: seq<IndexEntry>, i: nat)
    requires 0 < i <= |es|
    ensures es == [es[0]] + es[1..]
    ensures i < |es| ==> es[..i] + es[i + 1..] == [es[0]] + (es[1..][..i - 1] + es[1..][i..])
  {
  }

  lemma CutSorted(es: seq<IndexEntry>, k: nat)
    requires k < |es| && NewestFirst(es)
    ensures NewestFirst(es[..k] + es[k + 1..])
  {
    var r := es[..k] + es[k + 1..];
    forall i, j | 0 <= i < j < |r| ensures r[i].createdAt >= r[j].createdAt {
      assert r[i] == es[if i < k then i else i + 1] && r[j] == es[if j < k then j else j + 1];
    }
  }

  lemma WithoutFacts(es: seq<IndexEntry>, e: IndexEntry)
    requires e in es && NewestFirst(es) && forall x :: x in es && x.id == e.id ==> x == e
    ensures multiset(Without(es, e.id)) == multiset(es) - multiset{e}
    ensures NewestFirst(Without(es, e.id))
  {
    var k := WithoutCut(es, e.id);
    assert es[k] in es;
    CutElements(es, k);
    CutSorted(es, k);
  }

  lemma {:induction false} WithoutAbsent(es: seq<IndexEntry>, id: Id)
    requires forall x :: x in es ==> x.id != id
    ensures Without(es, id) == es
  {
    if es != [] {
      WithoutAbsent(es[1..], id);
    }
  }

  lemma WithoutSorted(es: seq<IndexEntry>, id: Id)
    requires NewestFirst(es)
    ensures NewestFirst(Without(es, id))
  {
    if exists x :: x in es && x.id == id {
      var k := WithoutCut(es, id);
      CutSorted(es, k);
    } else {
      WithoutAbsent(es, id);
    }
  }

  // ---------- the index ----------

  function Add(ix: Index, id: Id, s: State, t: Time): Index {
    ix[s := Insert(Bucket(ix, s), IndexEntry(id, t))]
  }

  function Remove(ix: Index, id: Id, s: State): Index {
    if s !in ix then ix
    else if Without(ix[s], id) == [] then ix - {s}
    else ix[s := Without(ix[s], id)]
  }

  function Move(ix: Index, id: Id, from: State, to: State, t: Time): Index {
    if from == to then ix else Add(Remove(ix, id, from), id, to, t)
  }

  ghost predicate AllSorted(ix: Index) {
    forall s :: NewestFirst(Bucket(ix, s))
  }

  lemma AddSorted(ix: Index, id: Id, s: State, t: Time)
    requires AllSorted(ix)
    ensures AllSorted(Add(ix, id, s, t))
  {
    var ix' := Add(ix, id, s, t);
    forall q ensures NewestFirst(Bucket(ix', q)) {
      assert NewestFirst(Bucket(ix, q));
      InsertFacts(Bucket(ix, q), IndexEntry(id, t));
    }
  }

  lemma RemoveSorted(ix: Index, id: Id, s: State)
    requires AllSorted(ix)
    ensures AllSorted(Remove(ix, id, s))
  {
    var ix' := Remove(ix, id, s);
    forall q ensures NewestFirst(Bucket(ix', q)) {
      assert NewestFirst(Bucket(ix, q));
      WithoutSorted(Bucket(ix, q), id);
    }
  }

  /**
   * The index lists exactly the live tasks of each state, each once, newest first, and keeps no
   * empty bucket.
   */
  ghost predicate Mirrors(ix: Index, live: Live) {
    && (forall s :: s in ix ==> ix[s] != [])
    && AllSorted(ix)
    && (forall s, e :: multiset(Bucket(ix, s))[e] == Occurs(live, s, e))
  }

  function Occurs(live: Live, s: State, e: IndexEntry): nat {
    if e.id in live && live[e.id] == Slot(s, e.createdAt) then 1 else 0
  }

  lemma MirrorsEmpty()
    ensures Mirrors(map[], map[])
  {
  }

  lemma ListedOnce(ix: Index, live: Live, s: State)
    requires Mirrors(ix, live)
    ensures forall e :: e in Bucket(ix, s) <==> e.id in live && live[e.id] == Slot(s, e.createdAt)
  {
    forall e ensures e in Bucket(ix, s) <==> e.id in live && live[e.id] == Slot(s, e.createdAt) {
      assert multiset(Bucket(ix, s))[e] == Occurs(live, s, e);
      assert e in Bucket(ix, s) <==> e in multiset(Bucket(ix, s));
    }
  }

  predicate DistinctIds(es: seq<IndexEntry>) {
    forall i, j :: 0 <= i < j < |es| ==> es[i].id != es[j].id
  }

  ghost predicate Lists(es: seq<IndexEntry>, id: Id) {
    exists i :: 0 <= i < |es| && es[i].id == id
  }

  /** What mirroring means for one bucket. */
  lemma BucketIsExact(ix: Index, live: Live, s: State)
    requires Mirrors(ix, live)
    ensures var es := Bucket(ix, s);
      && NewestFirst(es) && DistinctIds(es) && (s in ix ==> es != [])
      && forall id :: Lists(es, id) <==> id in live && live[id].state == s
  {
    var es := Bucket(ix, s);
    assert NewestFirst(es);
    ListedOnce(ix, live, s);
    forall i, j | 0 <= i < j < |es| ensures es[i].id != es[j].id {
      assert es[i] in es && es[j] in es;
      if es[i].id == es[j].id {
        assert multiset(es)[es[i]] == Occurs(live, s, es[i]);
        TwiceCounts(es, i, j);
      }
    }
    forall id | id in live && live[id].state == s ensures Lists(es, id) {
      assert IndexEntry(id, live[id].createdAt) in es;
    }
    forall id | Lists(es, id) ensures id in live && live[id].state == s {
      var i :| 0 <= i < |es| && es[i].id == id;
      assert es[i] in es;
    }
  }

  lemma AddMirrors(ix: Index, live: Live, id: Id, s: State, t: Time)
    requires Mirrors(ix, live) && id !in live
    ensures Mirrors(Add(ix, id, s, t), live[id := Slot(s, t)])
  {
    var ix' := Add(ix, id, s, t);
    var live' := live[id := Slot(s, t)];
    AddSorted(ix, id, s, t);
    forall q, x ensures multiset(Bucket(ix', q))[x] == Occurs(live', q, x) {
      assert NewestFirst(Bucket(ix, s));
      AddCounts(ix, id, s, t, q, x);
      assert multiset(Bucket(ix, q))[x] == Occurs(live, q, x);
    }
  }

  lemma AddCounts(ix: Index, id: Id, s: State, t: Time, q: State, e: IndexEntry)
    requires NewestFirst(Bucket(ix, s))
    ensures multiset(Bucket(Add(ix, id, s, t), q))[e] ==
      multiset(Bucket(ix, q))[e] + if q == s && e == IndexEntry(id, t) then 1 else 0
  {
    InsertFacts(Bucket(ix, s), IndexEntry(id, t));
  }

  /** One wrong count is enough for an index to be wrong. */
  lemma MiscountBreaks(ix: Index, live: Live, s: State, e: IndexEntry)
    requires multiset(Bucket(ix, s))[e] != Occurs(live, s, e)
    ensures !Mirrors(ix, live)
  {
  }

  lemma RemoveMirrors(ix: Index, live: Live, id: Id)
    requires Mirrors(ix, live) && id in live
    ensures Mirrors(Remove(ix, id, live[id].state), live - {id})
  {
    var s := live[id].state;
    var ix' := Remove(ix, id, s);
    RemoveAt(ix, live, id);
    forall q ensures NewestFirst(Bucket(ix', q)) {
      if q != s { assert NewestFirst(Bucket(ix, q)); }
    }
    forall q, x ensures multiset(Bucket(ix', q))[x] == Occurs(live - {id}, q, x) {
      RemoveCounts(ix, live, id, q, x);
    }
  }

  lemma RemoveCounts(ix: Index, live: Live, id: Id, q: State, x: IndexEntry)
    requires Mirrors(ix, live) && id in live
    ensures multiset(Bucket(Remove(ix, id, live[id].state), q))[x] == Occurs(live - {id}, q, x)
  {
    RemoveAt(ix, live, id);
    assert multiset(Bucket(ix, q))[x] == Occurs(live, q, x);
  }

  lemma RemoveAt(ix: Index, live: Live, id: Id)
    requires Mirrors(ix, live) && id in live
    ensures var s := live[id].state; var ix' := Remove(ix, id, s); var e := IndexEntry(id, live[id].createdAt);
      && NewestFirst(Bucket(ix', s))
      && multiset(Bucket(ix', s)) == multiset(Bucket(ix, s)) - multiset{e}
      && (forall q :: q != s ==> Bucket(ix', q) == Bucket(ix, q))
  {
    var s := live[id].state;
    var e := IndexEntry(id, live[id].createdAt);
    ListedOnce(ix, live, s);
    assert e in Bucket(ix, s) && NewestFirst(Bucket(ix, s));
    WithoutFacts(Bucket(ix, s), e);
    assert Bucket(Remove(ix, id, s), s) == Without(Bucket(ix, s), id);
  }

  /** Removing a task that is not listed in that state changes nothing. */
  lemma RemoveAbsent(ix: Index, live: Live, id: Id, s: State)
    requires Mirrors(ix, live) && (id in live ==> live[id].state != s)
    ensures Remove(ix, id, s) == ix
  {
    if s in ix {
      ListedOnce(ix, live, s);
      WithoutAbsent(ix[s], id);
    }
  }

  /** Two indexes mirroring the same tasks agree, up to the order of tasks created at the same time. */
  lemma MirrorIsUnique(a: Index, b: Index, live: Live)
    requires Mirrors(a, live) && Mirrors(b, live)
    ensures a.Keys == b.Keys
    ensures forall s :: multiset(Bucket(a, s)) == multiset(Bucket(b, s))
    ensures DistinctTimes(live) ==> a == b
  {
    forall s ensures multiset(Bucket(a, s)) == multiset(Bucket(b, s)) {
      assert forall e :: multiset(Bucket(a, s))[e] == Occurs(live, s, e) == multiset(Bucket(b, s))[e];
    }
    forall s ensures s in a <==> s in b {
      assert |multiset(Bucket(a, s))| == |Bucket(a, s)| && |multiset(Bucket(b, s))| == |Bucket(b, s)|;
    }
    if DistinctTimes(live) {
      forall s | s in a ensures a[s] == b[s] {
        ListedOnce(a, live, s);
        assert Bucket(a, s) == a[s] && Bucket(b, s) == b[s];
        assert NewestFirst(Bucket(a, s)) && NewestFirst(Bucket(b, s));
        forall x, y | x in a[s] && y in a[s] && x.createdAt == y.createdAt ensures x == y {
          assert x.id in live && y.id in live;
        }
        DescendingIsUnique(a[s], b[s], (e: IndexEntry) => e.createdAt);
      }
    }
  }

  ghost predicate DistinctTimes(live: Live) {
    forall i, j :: i in live && j in live && live[i].createdAt == live[j].createdAt ==> i == j
  }
}
