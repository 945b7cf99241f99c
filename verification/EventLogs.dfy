/** Event log entries, the trace and task indexes over them, and log queries (pkg/eventlog). */
module EventLogs {
  import opened StateMachine

  datatype Entry = Entry(id: string, traceId: string, taskId: string, stage: string, source: string, timestamp: int)

  /** Empty strings and missing bounds do not constrain. */
  datatype LogFilter = LogFilter(
    traceId: string, taskId: string, stage: string, source: string,
    startTime: Option<int>, endTime: Option<int>, limit: int)

  predicate LogMatches(e: Entry, f: LogFilter) {
    && (f.traceId == "" || e.traceId == f.traceId)
    && (f.taskId == "" || e.taskId == f.taskId)
    && (f.stage == "" || e.stage == f.stage)
    && (f.source == "" || e.source == f.source)
    && (f.startTime.None? || e.timestamp >= f.startTime.value)
    && (f.endTime.None? || e.timestamp <= f.endTime.value)
  }

  /** The key an index goes by. */
  datatype KeyKind = ByTrace | ByTask

  function KeyOf(kind: KeyKind, e: Entry): string {
    match kind
    case ByTrace => e.traceId
    case ByTask => e.taskId
  }

  // ---------- selecting ----------

  /** The entries that satisfy p, in order. */
  function Where(es: seq<Entry>, p: Entry -> bool): seq<Entry> {
    if es == [] then []
    else Where(es[..|es| - 1], p) + if p(es[|es| - 1]) then [es[|es| - 1]] else []
  }

  lemma {:induction false} WhereSame(es: seq<Entry>, p: Entry -> bool, q: Entry -> bool)
    requires forall e :: e in es ==> p(e) == q(e)
    ensures Where(es, p) == Where(es, q)
  {
    if es != [] {
      WhereSame(es[..|es| - 1], p, q);
      assert es[|es| - 1] in es;
    }
  }

  lemma {:induction false} WhereMembers(es: seq<Entry>, p: Entry -> bool, x: Entry)
    ensures x in Where(es, p) <==> x in es && p(x)
  {
    if es != [] {
      WhereMembers(es[..|es| - 1], p, x);
      assert es == es[..|es| - 1] + [es[|es| - 1]];
    }
  }

  function IdsOf(es: seq<Entry>): seq<string> {
    if es == [] then [] else IdsOf(es[..|es| - 1]) + [es[|es| - 1].id]
  }

  lemma {:induction false} IdsOfMembers(es: seq<Entry>, id: string)
    ensures id in IdsOf(es) <==> exists e :: e in es && e.id == id
  {
    if es != [] {
      IdsOfMembers(es[..|es| - 1], id);
      assert es == es[..|es| - 1] + [es[|es| - 1]];
      assert es[|es| - 1] in es;
    }
  }

  function HasKey(kind: KeyKind, k: string): Entry -> bool {
    e => KeyOf(kind, e) == k
  }

  /** IDs of the entries with this key, in order. */
  function IdsWith(es: seq<Entry>, kind: KeyKind, k: string): seq<string> {
    IdsOf(Where(es, HasKey(kind, k)))
  }

  lemma IdsWithSnoc(es: seq<Entry>, e: Entry, kind: KeyKind, k: string)
    ensures IdsWith(es + [e], kind, k) == IdsWith(es, kind, k) + if KeyOf(kind, e) == k then [e.id] else []
  {
    var all := es + [e];
    assert all[..|all| - 1] == es && all[|all| - 1] == e;
    var w := Where(es, HasKey(kind, k));
    if KeyOf(kind, e) == k {
      assert Where(all, HasKey(kind, k)) == w + [e];
      IdsOfSnoc(w, e);
    } else {
      assert Where(all, HasKey(kind, k)) == w;
    }
  }

  lemma IdsOfSnoc(es: seq<Entry>, e: Entry)
    ensures IdsOf(es + [e]) == IdsOf(es) + [e.id]
  {
    assert (es + [e])[..|es|] == es;
  }

  lemma {:induction false} IdsWithCons(e: Entry, es: seq<Entry>, kind: KeyKind, k: string)
    ensures IdsWith([e] + es, kind, k) == (if KeyOf(kind, e) == k then [e.id] else []) + IdsWith(es, kind, k)
  {
    if es == [] {
      assert [e] + es == [] + [e];
      IdsWithSnoc([], e, kind, k);
    } else {
      var pre, last := es[..|es| - 1], es[|es| - 1];
      assert [e] + es == ([e] + pre) + [last] && es == pre + [last];
      IdsWithCons(e, pre, kind, k);
      IdsWithSnoc([e] + pre, last, kind, k);
      IdsWithSnoc(pre, last, kind, k);
    }
  }

  predicate DistinctEntryIds(es: seq<Entry>) {
    forall i, j :: 0 <= i < j < |es| ==> es[i].id != es[j].id
  }

  function HasIdIn(ids: seq<string>): Entry -> bool {
    (e: Entry) => e.id in ids
  }

  /** With distinct IDs, selecting by the IDs listed under a key is selecting by the key. */
  lemma SelectByIds(es: seq<Entry>, kind: KeyKind, k: string)
    requires DistinctEntryIds(es)
    ensures Where(es, HasIdIn(IdsWith(es, kind, k))) == Where(es, HasKey(kind, k))
  {
    var p, ids := HasKey(kind, k), IdsWith(es, kind, k);
    forall e | e in es ensures HasIdIn(ids)(e) <==> p(e) {
      IdsOfMembers(Where(es, p), e.id);
      WhereMembers(es, p, e);
      if e.id in ids {
        var x :| x in Where(es, p) && x.id == e.id;
        WhereMembers(es, p, x);
        var i :| 0 <= i < |es| && es[i] == e;
        var j :| 0 <= j < |es| && es[j] == x;
        assert i == j;
      }
    }
    WhereSame(es, HasIdIn(ids), p);
  }

  // ---------- indexes ----------

  type KeyIndex = map<string, seq<string>>

  function Listed(ix: KeyIndex, k: string): seq<string> {
    if k in ix then ix[k] else []
  }

  function AddId(ix: KeyIndex, k: string, id: string): KeyIndex {
    if k == "" then ix else ix[k := Listed(ix, k) + [id]]
  }

  /** Drops the first occurrence. */
  function Dropped(ids: seq<string>, id: string): seq<string> {
    if ids == [] then [] else if ids[0] == id then ids[1..] else [ids[0]] + Dropped(ids[1..], id)
  }

  function DropId(ix: KeyIndex, k: string, id: string): KeyIndex {
    if k == "" then ix
    else if Dropped(Listed(ix, k), id) == [] then ix - {k}
    else ix[k := Dropped(Listed(ix, k), id)]
  }

  /** The code both logs share for taking an ID out of an index. */
  method RemoveId(ix: KeyIndex, k: string, id: string) returns (r: KeyIndex)
    ensures r == DropId(ix, k, id)
  {
    if k == "" {
      return ix;
    }
    var ids := Listed(ix, k);
    var i := 0;
    while i < |ids| && ids[i] != id
      invariant 0 <= i <= |ids|
      invariant Dropped(ids, id) == ids[..i] + Dropped(ids[i..], id)
    {
      assert ids[i..][1..] == ids[i + 1..];
      i := i + 1;
    }
    if i < |ids| {
      assert ids[i..][1..] == ids[i + 1..];
      ids := ids[..i] + ids[i + 1..];
    } else {
      assert ids[..i] == ids && ids[i..] == [];
    }
    assert ids == Dropped(Listed(ix, k), id);
    if |ids| == 0 {
      r := ix - {k};
    } else {
      r := ix[k := ids];
    }
  }

  // ---------- time spans ----------

  /** The answer to a trace query. */
  datatype Timeline = Timeline(traceId: string, entries: seq<Entry>, tasks: set<string>, duration: int)

  predicate IsEarliest(es: seq<Entry>, i: nat) {
    i < |es| && forall j :: 0 <= j < |es| ==> es[i].timestamp <= es[j].timestamp
  }

  predicate IsLatest(es: seq<Entry>, i: nat) {
    i < |es| && forall j :: 0 <= j < |es| ==> es[j].timestamp <= es[i].timestamp
  }

  /** The time from the earliest to the latest entry. */
  ghost predicate IsSpan(es: seq<Entry>, d: int) {
    if es == [] then d == 0
    else exists i: nat, j: nat :: IsEarliest(es, i) && IsLatest(es, j) && d == es[j].timestamp - es[i].timestamp
  }

  method Span(es: seq<Entry>) returns (duration: int)
    ensures IsSpan(es, duration)
    ensures forall x, y :: x in es && y in es ==> y.timestamp - x.timestamp <= duration
    ensures es != [] ==> exists x, y :: x in es && y in es && y.timestamp - x.timestamp == duration
  {
    if |es| == 0 {
      return 0;
    }
    var lo, hi := 0, 0;
    for i := 1 to |es|
      invariant lo < |es| && hi < |es|
      invariant forall j :: 0 <= j < i ==> es[lo].timestamp <= es[j].timestamp
      invariant forall j :: 0 <= j < i ==> es[j].timestamp <= es[hi].timestamp
    {
      if es[i].timestamp < es[lo].timestamp {
        lo := i;
      }
      if es[i].timestamp > es[hi].timestamp {
        hi := i;
      }
    }
    duration := es[hi].timestamp - es[lo].timestamp;
    assert IsEarliest(es, lo) && IsLatest(es, hi);
    assert es[lo] in es && es[hi] in es;
  }

  ghost function TaskIds(es: seq<Entry>): set<string> {
    set e | e in es && e.taskId != "" :: e.taskId
  }

  method CollectTasks(es: seq<Entry>) returns (tasks: set<string>)
    ensures tasks == TaskIds(es)
    ensures forall k :: k in tasks <==> k != "" && exists e :: e in es && e.taskId == k
  {
    tasks := {};
    for i := 0 to |es|
      invariant tasks == TaskIds(es[..i])
    {
      assert es[..i + 1] == es[..i] + [es[i]];
      if es[i].taskId != "" {
        tasks := tasks + {es[i].taskId};
      }
    }
    assert es[..|es|] == es;
  }
}
