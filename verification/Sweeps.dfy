/**
 * Timeout sweeps of pkg/task/timeout_checker.go: how many rounds they take, which tasks they fire
 * for, which deadlines the heap covers and when the next sweep is due.
 */
module Sweeps {
  import opened StateMachine
  import opened StateIndex
  import opened Tasks
  import opened Engine
  import opened Lives
  import opened Runs
  import opened RunInvariants
  import opened Slots

  // ---------- entries that are due ----------

  function DueBit(e: HeapEntry, now: Time): nat {
    if e.deadline <= now then 1 else 0
  }

  /** How many entries are due, repetitions counted. */
  ghost function DueCount(heap: multiset<HeapEntry>, now: Time): nat
    decreases |heap|
  {
    if heap == multiset{} then 0
    else
      var e :| e in heap;
      DueBit(e, now) + DueCount(heap - multiset{e}, now)
  }

  lemma {:induction false} DueRemove(heap: multiset<HeapEntry>, x: HeapEntry, now: Time)
    requires x in heap
    ensures DueCount(heap, now) == DueCount(heap - multiset{x}, now) + DueBit(x, now)
    decreases |heap|
  {
    var e :| e in heap && DueCount(heap, now) == DueBit(e, now) + DueCount(heap - multiset{e}, now);
    if e != x {
      DueRemove(heap - multiset{e}, x, now);
      DueRemove(heap - multiset{x}, e, now);
      assert heap - multiset{e} - multiset{x} == heap - multiset{x} - multiset{e};
    }
  }

  lemma DueAdd(heap: multiset<HeapEntry>, x: HeapEntry, now: Time)
    ensures DueCount(heap + multiset{x}, now) == DueCount(heap, now) + DueBit(x, now)
  {
    DueRemove(heap + multiset{x}, x, now);
    assert heap + multiset{x} - multiset{x} == heap;
  }

  lemma {:induction false} DueZero(heap: multiset<HeapEntry>, now: Time)
    ensures DueCount(heap, now) == 0 <==> forall e :: e in heap ==> e.deadline > now
    decreases |heap|
  {
    if heap != multiset{} {
      var x :| x in heap;
      DueRemove(heap, x, now);
      DueZero(heap - multiset{x}, now);
      assert forall e :: e in heap ==> e == x || e in heap - multiset{x};
    }
  }

  // ---------- one round ----------

  /** A callback changes its own task only and pushes at most one entry, later than the sweep. */
  ghost predicate RoundEffect(y: Sys, y': Sys, e: HeapEntry, now: Time) {
    && (forall id :: id != e.id ==> (id in y'.store.db <==> id in y.store.db))
    && (forall id :: id != e.id && id in y.store.db ==> y'.store.db[id] == y.store.db[id])
    && (|| y'.heap == y.heap
        || exists d :: d > now && y'.heap == y.heap + multiset{HeapEntry(d, e.id)})
  }

  lemma {:induction false} TryTerminalsLocal(st: Settings, y: Sys, t: Task, targets: seq<State>, ts: seq<Time>)
    requires KeysMatch(y.store.db) && |ts| == 4
    ensures var y' := TryTerminals(st, y, t, targets, ts).0;
      && y'.heap == y.heap && KeysMatch(y'.store.db) && y'.store.db.Keys == y.store.db.Keys
      && (forall id :: id != t.id && id in y.store.db ==> y'.store.db[id] == y.store.db[id])
    decreases |targets|
  {
    if targets != [] {
      if st.cfg.IsAllowed(t.state, targets[0]) {
        CommitShape(st, y, ArchiveCommand(t, targets[0]), ts, false);
        TryTerminalsLocal(st, Commit(st, y, ArchiveCommand(t, targets[0]), ts, false).0, t, targets[1..], ts);
      } else {
        TryTerminalsLocal(st, y, t, targets[1..], ts);
      }
    }
  }

  lemma RetryIsLocal(st: Settings, y: Sys, t: Task, now: Time, ts: seq<Time>)
    requires KeysMatch(y.store.db) && Readings(now, ts) && t.state in st.cfg.states
    ensures RoundEffect(y, Retried(st, y, t, ts), HeapEntry(now, t.id), now)
  {
    CommitShape(st, y, RetryCommand(st, t, ts), ts, true);
    assert RetryDeadline(st, t, ts) > now;
  }

  lemma ArchiveIsLocal(st: Settings, y: Sys, t: Task, now: Time, ts: seq<Time>)
    requires KeysMatch(y.store.db) && |ts| == 4
    ensures RoundEffect(y, ArchivedOnTimeout(st, y, t, ts), HeapEntry(now, t.id), now)
  {
    TryTerminalsLocal(st, y, t, st.cfg.terminalStates, ts);
    ResultShape(TryTerminals(st, y, t, st.cfg.terminalStates, ts).0, t.id, ts);
  }

  lemma CallbackIsLocal(st: Settings, y: Sys, e: HeapEntry, now: Time, ts: seq<Time>)
    requires KeysMatch(y.store.db) && Readings(now, ts) && e.id in y.store.db
    ensures RoundEffect(y, TimeoutHandled(st, y, e.id, y.store.db[e.id].state, ts), e, now)
  {
    var t := y.store.db[e.id];
    if t.state in st.cfg.states {
      RetryIsLocal(st, y, t, now, ts);
      ArchiveIsLocal(st, y, t, now, ts);
    }
  }

  lemma PopIsLocal(st: Settings, y: Sys, e: HeapEntry, now: Time, ts: seq<Time>)
    requires KeysMatch(y.store.db) && Readings(now, ts)
    ensures RoundEffect(y.(heap := y.heap - multiset{e}), Popped(st, y, e, now, ts), e, now)
  {
    if Fires(y, e, now) {
      CallbackIsLocal(st, y.(heap := y.heap - multiset{e}, clock := ts[3]), e, now, ts);
    }
  }

  /** Every round takes exactly one due entry away. */
  lemma PopTakesOneDue(st: Settings, y: Sys, e: HeapEntry, now: Time, ts: seq<Time>)
    requires KeysMatch(y.store.db) && CanPop(y, e, now, ts)
    ensures DueCount(Popped(st, y, e, now, ts).heap, now) + 1 == DueCount(y.heap, now)
  {
    PopIsLocal(st, y, e, now, ts);
    DueRemove(y.heap, e, now);
    var y', rest := Popped(st, y, e, now, ts), y.heap - multiset{e};
    if y'.heap != rest {
      var d :| d > now && y'.heap == rest + multiset{HeapEntry(d, e.id)};
      DueAdd(rest, HeapEntry(d, e.id), now);
    }
  }

  // ---------- whole sweeps ----------

  /** What is popped in one round, and the clock readings of its callback. */
  datatype Round = Round(entry: HeapEntry, ts: seq<Time>)

  /** Rounds of one sweep, in order. */
  ghost predicate IsSweep(st: Settings, y: Sys, now: Time, rounds: seq<Round>)
    decreases |rounds|, 0
  {
    rounds != [] ==>
      var pre, p := rounds[..|rounds| - 1], rounds[|rounds| - 1];
      IsSweep(st, y, now, pre) && CanPop(AfterSweep(st, y, now, pre), p.entry, now, p.ts)
  }

  ghost function AfterSweep(st: Settings, y: Sys, now: Time, rounds: seq<Round>): Sys
    requires IsSweep(st, y, now, rounds)
    decreases |rounds|, 1
  {
    if rounds == [] then y
    else
      var pre, p := rounds[..|rounds| - 1], rounds[|rounds| - 1];
      Popped(st, AfterSweep(st, y, now, pre), p.entry, now, p.ts)
  }

  /** The tasks the callback is called for. */
  ghost function Fired(st: Settings, y: Sys, now: Time, rounds: seq<Round>): seq<Id>
    requires IsSweep(st, y, now, rounds)
    decreases |rounds|
  {
    if rounds == [] then []
    else
      var pre, e := rounds[..|rounds| - 1], rounds[|rounds| - 1].entry;
      Fired(st, y, now, pre) + FiredBy(AfterSweep(st, y, now, pre), e, now)
  }

  function FiredBy(y: Sys, e: HeapEntry, now: Time): seq<Id> {
    if Fires(y, e, now) then [e.id] else []
  }

  /** No sweep can go on for ever: with every round one due entry fewer is left. */
  lemma {:induction false} SweepRoundsAreBounded(st: Settings, y: Sys, now: Time, rounds: seq<Round>)
    requires Runnable(st.cfg) && Base(st, y) && IsSweep(st, y, now, rounds)
    ensures |rounds| + DueCount(AfterSweep(st, y, now, rounds).heap, now) == DueCount(y.heap, now)
    ensures Base(st, AfterSweep(st, y, now, rounds))
    decreases |rounds|
  {
    if rounds != [] {
      var pre, p := rounds[..|rounds| - 1], rounds[|rounds| - 1];
      SweepRoundsAreBounded(st, y, now, pre);
      var z := AfterSweep(st, y, now, pre);
      PopTakesOneDue(st, z, p.entry, now, p.ts);
      PopKeepsBase(st, z, p.entry, now, p.ts);
    }
  }

  /** Nor can it stop early: while an entry is due, the smallest one can be taken. */
  lemma SweepCanGoOn(st: Settings, y: Sys, now: Time, ts: seq<Time>)
    requires now <= y.clock && Readings(y.clock, ts) && DueCount(y.heap, now) > 0
    ensures exists e :: CanPop(y, e, now, ts)
  {
    DueZero(y.heap, now);
    var x :| x in y.heap && x.deadline <= now;
    var m := Smallest(y.heap);
    assert CanPop(y, m, now, ts);
  }

  lemma {:induction false} Smallest(heap: multiset<HeapEntry>) returns (m: HeapEntry)
    requires heap != multiset{}
    ensures m in heap && forall x :: x in heap ==> m.deadline <= x.deadline
    decreases |heap|
  {
    var e :| e in heap;
    var rest := heap - multiset{e};
    assert forall x :: x in heap ==> x == e || x in rest;
    if rest == multiset{} {
      m := e;
    } else {
      m := Smallest(rest);
      if e.deadline < m.deadline { m := e; }
    }
  }

  /** The rounds of a sweep as events of a run. */
  function AsEvents(now: Time, rounds: seq<Round>): seq<Event> {
    if rounds == [] then []
    else AsEvents(now, rounds[..|rounds| - 1]) + [Pop(rounds[|rounds| - 1].entry, now, rounds[|rounds| - 1].ts)]
  }

  /** A sweep continues a run, so whatever holds in every run holds throughout a sweep. */
  lemma {:induction false} SweepContinuesRun(st: Settings, evs: seq<Event>, y: Sys, now: Time, rounds: seq<Round>)
    requires IsRunOf(st, evs) && y == StateAfter(st, evs) && IsSweep(st, y, now, rounds)
    ensures IsRunOf(st, evs + AsEvents(now, rounds))
    ensures StateAfter(st, evs + AsEvents(now, rounds)) == AfterSweep(st, y, now, rounds)
    decreases |rounds|
  {
    if rounds == [] {
      assert evs + AsEvents(now, rounds) == evs;
    } else {
      var pre := rounds[..|rounds| - 1];
      SweepContinuesRun(st, evs, y, now, pre);
      RoundContinuesRun(st, evs + AsEvents(now, pre), y, now, rounds);
      AsEventsSnoc(evs, now, rounds);
    }
  }

  lemma AsEventsSnoc(evs: seq<Event>, now: Time, rounds: seq<Round>)
    requires rounds != []
    ensures var p := rounds[|rounds| - 1];
      evs + AsEvents(now, rounds) == evs + AsEvents(now, rounds[..|rounds| - 1]) + [Pop(p.entry, now, p.ts)]
  {
  }

  lemma RoundContinuesRun(st: Settings, run: seq<Event>, y: Sys, now: Time, rounds: seq<Round>)
    requires rounds != [] && IsSweep(st, y, now, rounds) && IsRunOf(st, run)
    requires StateAfter(st, run) == AfterSweep(st, y, now, rounds[..|rounds| - 1])
    ensures var p := rounds[|rounds| - 1]; var more := run + [Pop(p.entry, now, p.ts)];
      IsRunOf(st, more) && StateAfter(st, more) == AfterSweep(st, y, now, rounds)
  {
    var p := rounds[|rounds| - 1];
    PopContinuesRun(st, run, StateAfter(st, run), p.entry, now, p.ts);
  }

  lemma PopContinuesRun(st: Settings, evs: seq<Event>, z: Sys, e: HeapEntry, now: Time, ts: seq<Time>)
    requires IsRunOf(st, evs) && StateAfter(st, evs) == z && CanPop(z, e, now, ts)
    ensures IsRunOf(st, evs + [Pop(e, now, ts)])
    ensures StateAfter(st, evs + [Pop(e, now, ts)]) == Popped(st, z, e, now, ts)
  {
    RunSnoc(st, evs, Pop(e, now, ts));
  }

  lemma RunSnoc(st: Settings, evs: seq<Event>, ev: Event)
    requires IsRunOf(st, evs) && Enabled(st, StateAfter(st, evs), ev)
    ensures IsRunOf(st, evs + [ev]) && StateAfter(st, evs + [ev]) == Apply(st, StateAfter(st, evs), ev)
  {
    assert (evs + [ev])[..|evs|] == evs;
  }

  // ---------- which tasks fire ----------

  /** No task has two due entries. */
  ghost predicate DueOnce(heap: multiset<HeapEntry>, now: Time) {
    && (forall e :: e in heap && e.deadline <= now ==> heap[e] == 1)
    && (forall a, b :: a in heap && b in heap && a.deadline <= now && b.deadline <= now && a.id == b.id ==> a == b)
  }

  ghost predicate HasDue(heap: multiset<HeapEntry>, now: Time, id: Id) {
    exists e :: e in heap && e.deadline <= now && e.id == id
  }

  ghost predicate WillFire(y: Sys, now: Time, id: Id) {
    && HasDue(y.heap, now, id)
    && id in y.store.db && y.store.db[id].timeoutAt.Some? && y.store.db[id].timeoutAt.value < now
  }

  ghost predicate SameTask(y: Sys, z: Sys, id: Id) {
    (id in y.store.db <==> id in z.store.db) && (id in y.store.db ==> y.store.db[id] == z.store.db[id])
  }

  lemma PopKeepsDueOnce(st: Settings, y: Sys, e: HeapEntry, now: Time, ts: seq<Time>)
    requires KeysMatch(y.store.db) && CanPop(y, e, now, ts) && DueOnce(y.heap, now)
    ensures var y' := Popped(st, y, e, now, ts);
      && DueOnce(y'.heap, now)
      && (forall id :: HasDue(y'.heap, now, id) <==> id != e.id && HasDue(y.heap, now, id))
      && (forall id :: id != e.id ==> SameTask(y, y', id))
  {
    PopIsLocal(st, y, e, now, ts);
    RoundKeepsDueOnce(y, Popped(st, y, e, now, ts), e, now);
  }

  lemma RoundKeepsDueOnce(y: Sys, y': Sys, e: HeapEntry, now: Time)
    requires DueOnce(y.heap, now) && e in y.heap && e.deadline <= now
    requires RoundEffect(y.(heap := y.heap - multiset{e}), y', e, now)
    ensures DueOnce(y'.heap, now)
    ensures forall id :: HasDue(y'.heap, now, id) <==> id != e.id && HasDue(y.heap, now, id)
    ensures forall id :: id != e.id ==> SameTask(y, y', id)
  {
    assert forall x: HeapEntry :: x.deadline <= now ==> y'.heap[x] == (if x == e then 0 else y.heap[x]);
    DueAfterRemoval(y.heap, y'.heap, e, now);
  }

  lemma DueAfterRemoval(a: multiset<HeapEntry>, b: multiset<HeapEntry>, e: HeapEntry, now: Time)
    requires DueOnce(a, now) && e in a && e.deadline <= now
    requires forall x: HeapEntry :: x.deadline <= now ==> b[x] == (if x == e then 0 else a[x])
    ensures DueOnce(b, now) && forall id :: HasDue(b, now, id) <==> id != e.id && HasDue(a, now, id)
  {
    forall id | id != e.id && HasDue(a, now, id) ensures HasDue(b, now, id) {
      var x :| x in a && x.deadline <= now && x.id == id;
      assert x in b;
    }
    forall id | HasDue(b, now, id) ensures id != e.id && HasDue(a, now, id) {
      var x :| x in b && x.deadline <= now && x.id == id;
      assert x in a;
    }
  }

  /**
   * In the course of a sweep from y, now at z: a task that still has a due entry is as it was and has
   * not fired; any other has fired exactly if it had a due entry at the start and was past its deadline.
   */
  ghost predicate FireInv(y: Sys, z: Sys, now: Time, id: Id, fired: nat) {
    if HasDue(z.heap, now, id) then HasDue(y.heap, now, id) && SameTask(y, z, id) && fired == 0
    else fired == if WillFire(y, now, id) then 1 else 0
  }

  lemma FireStep(y: Sys, z: Sys, z': Sys, e: HeapEntry, now: Time, id: Id, fired: nat)
    requires e in z.heap && e.deadline <= now && FireInv(y, z, now, id, fired)
    requires HasDue(z'.heap, now, id) <==> id != e.id && HasDue(z.heap, now, id)
    requires id != e.id ==> SameTask(z, z', id)
    ensures FireInv(y, z', now, id, fired + multiset(FiredBy(z, e, now))[id])
  {
    assert HasDue(z.heap, now, e.id);
    if id == e.id {
      assert WillFire(y, now, id) <==> Fires(z, e, now);
      assert multiset([e.id])[id] == 1;
    } else {
      assert multiset([e.id])[id] == 0;
    }
  }

  lemma {:induction false} SweepFiresOnce(st: Settings, y: Sys, now: Time, rounds: seq<Round>, id: Id)
    requires Runnable(st.cfg) && Base(st, y) && DueOnce(y.heap, now) && IsSweep(st, y, now, rounds)
    ensures DueOnce(AfterSweep(st, y, now, rounds).heap, now)
    ensures FireInv(y, AfterSweep(st, y, now, rounds), now, id, multiset(Fired(st, y, now, rounds))[id])
    decreases |rounds|
  {
    if rounds != [] {
      var pre, p := rounds[..|rounds| - 1], rounds[|rounds| - 1];
      SweepFiresOnce(st, y, now, pre, id);
      SweepRoundsAreBounded(st, y, now, pre);
      var z := AfterSweep(st, y, now, pre);
      PopKeepsDueOnce(st, z, p.entry, now, p.ts);
      FireStep(y, z, AfterSweep(st, y, now, rounds), p.entry, now, id, multiset(Fired(st, y, now, pre))[id]);
    }
  }

  // ---------- a sweep of any heap ----------

  /** How many rounds took an entry of the task. */
  function PopsOf(rounds: seq<Round>, id: Id): nat {
    if rounds == [] then 0
    else PopsOf(rounds[..|rounds| - 1], id) + if rounds[|rounds| - 1].entry.id == id then 1 else 0
  }

  /**
   * In the course of a sweep from y, now at z: a task that has not fired is as it was; once an entry
   * of it was popped, it has fired exactly if it was past its deadline at the start.
   */
  ghost predicate LateInv(y: Sys, z: Sys, now: Time, id: Id, pops: nat, fired: nat) {
    && fired <= pops && (fired == 0 ==> SameTask(y, z, id))
    && (if pops == 0 then HasDue(z.heap, now, id) <==> HasDue(y.heap, now, id)
        else HasDue(y.heap, now, id) && (fired > 0 <==> WillFire(y, now, id)))
  }

  lemma PopElsewhere(st: Settings, y: Sys, e: HeapEntry, now: Time, ts: seq<Time>, id: Id)
    requires KeysMatch(y.store.db) && CanPop(y, e, now, ts)
    ensures var y' := Popped(st, y, e, now, ts);
      && (id != e.id ==> SameTask(y, y', id) && (HasDue(y'.heap, now, id) <==> HasDue(y.heap, now, id)))
      && (!Fires(y, e, now) ==> SameTask(y, y', id))
  {
    PopIsLocal(st, y, e, now, ts);
    var y' := Popped(st, y, e, now, ts);
    if id != e.id {
      DueElsewhere(y, y', e, now, id);
    }
  }

  lemma DueElsewhere(y: Sys, y': Sys, e: HeapEntry, now: Time, id: Id)
    requires id != e.id && RoundEffect(y.(heap := y.heap - multiset{e}), y', e, now)
    ensures HasDue(y'.heap, now, id) <==> HasDue(y.heap, now, id)
  {
    assert forall x: HeapEntry :: x.deadline <= now && x.id == id ==> (x in y'.heap <==> x in y.heap);
  }

  lemma LateStep(y: Sys, z: Sys, z': Sys, e: HeapEntry, now: Time, id: Id, pops: nat, fired: nat)
    requires e in z.heap && e.deadline <= now && LateInv(y, z, now, id, pops, fired)
    requires id != e.id ==> SameTask(z, z', id) && (HasDue(z'.heap, now, id) <==> HasDue(z.heap, now, id))
    requires !Fires(z, e, now) ==> SameTask(z, z', id)
    ensures LateInv(y, z', now, id, pops + (if e.id == id then 1 else 0), fired + multiset(FiredBy(z, e, now))[id])
  {
    assert HasDue(z.heap, now, e.id);
    assert multiset([e.id])[id] == if id == e.id then 1 else 0;
  }

  lemma {:induction false} SweepKeepsLate(st: Settings, y: Sys, now: Time, rounds: seq<Round>, id: Id)
    requires Runnable(st.cfg) && Base(st, y) && IsSweep(st, y, now, rounds)
    ensures LateInv(y, AfterSweep(st, y, now, rounds), now, id, PopsOf(rounds, id), multiset(Fired(st, y, now, rounds))[id])
    decreases |rounds|
  {
    if rounds != [] {
      var pre, p := rounds[..|rounds| - 1], rounds[|rounds| - 1];
      SweepKeepsLate(st, y, now, pre, id);
      SweepRoundsAreBounded(st, y, now, pre);
      var z := AfterSweep(st, y, now, pre);
      PopElsewhere(st, z, p.entry, now, p.ts, id);
      LateStep(y, z, AfterSweep(st, y, now, rounds), p.entry, now, id, PopsOf(pre, id), multiset(Fired(st, y, now, pre))[id]);
    }
  }

  /**
   * Whatever the heap held, repeated and outdated entries included: a finished sweep fires for exactly
   * the tasks that had a due entry and were strictly past their deadline, and no more often than it
   * popped entries of the task.
   */
  lemma LateTasksFire(st: Settings, y: Sys, now: Time, rounds: seq<Round>, id: Id)
    requires Runnable(st.cfg) && Base(st, y) && IsSweep(st, y, now, rounds)
    requires DueCount(AfterSweep(st, y, now, rounds).heap, now) == 0
    ensures multiset(Fired(st, y, now, rounds))[id] > 0 <==> WillFire(y, now, id)
    ensures multiset(Fired(st, y, now, rounds))[id] <= PopsOf(rounds, id)
  {
    SweepKeepsLate(st, y, now, rounds, id);
    DueZero(AfterSweep(st, y, now, rounds).heap, now);
  }

  // ---------- a sweep after a rebuild ----------

  lemma FreshEntries(db: Db, r: Time, e: HeapEntry)
    ensures e in multiset(FreshHeap(db, r)) <==> Tracked(db, e.id) && e == EntryFor(db, e.id, r)
    ensures multiset(FreshHeap(db, r))[e] <= 1
  {
  }

  lemma FreshHeapIsOnce(db: Db, r: Time, now: Time)
    requires r <= now
    ensures DueOnce(multiset(FreshHeap(db, r)), now)
    ensures forall id :: HasDue(multiset(FreshHeap(db, r)), now, id) <==>
      Tracked(db, id) && db[id].timeoutAt.value <= now
  {
    var heap := multiset(FreshHeap(db, r));
    forall e ensures heap[e] <= 1 && (e in heap <==> Tracked(db, e.id) && e == EntryFor(db, e.id, r)) {
      FreshEntries(db, r, e);
    }
    forall id | Tracked(db, id) && db[id].timeoutAt.value <= now ensures HasDue(heap, now, id) {
      assert EntryFor(db, id, r) in heap;
    }
  }

  /**
   * A sweep that rebuilt the heap fires exactly once for every un-archived task that is past its
   * deadline, and for no other task.
   */
  lemma RebuiltSweepFiresExactlyTheLate(st: Settings, y: Sys, r: Time, now: Time, rounds: seq<Round>, id: Id)
    requires Runnable(st.cfg) && Base(st, y) && NeedsRebuild(st, y) && Enabled(st, y, SweepStart(r, now))
    requires IsSweep(st, SweepStarted(st, y, r, now), now, rounds)
    requires DueCount(AfterSweep(st, SweepStarted(st, y, r, now), now, rounds).heap, now) == 0
    ensures multiset(Fired(st, SweepStarted(st, y, r, now), now, rounds))[id] ==
      if && id in y.store.db && y.store.db[id].archivedAt == None
         && y.store.db[id].timeoutAt.Some? && y.store.db[id].timeoutAt.value < now then 1 else 0
  {
    var z := SweepStarted(st, y, r, now);
    FewerTasksKeepBase(st, y, z);
    FreshHeapIsOnce(y.store.db, r, now);
    SweepFiresOnce(st, z, now, rounds, id);
    DueZero(AfterSweep(st, z, now, rounds).heap, now);
  }

  // ---------- which deadlines the heap covers ----------

  /** Once the heap was built, every un-archived task with a deadline after `from` has an entry for it. */
  ghost predicate CoversFrom(y: Sys, from: Time) {
    !y.stale ==>
      forall id :: id in y.store.db && y.store.db[id].archivedAt == None && y.store.db[id].timeoutAt.Some?
                   && y.store.db[id].timeoutAt.value > from ==>
        HeapEntry(y.store.db[id].timeoutAt.value, id) in y.heap
  }

  ghost predicate Covers(y: Sys) {
    CoversFrom(y, y.clock)
  }

  /**
   * Enough for the heap to stay good: entries that lie ahead stay, and a task that is un-archived
   * afterwards either has its old deadline and was un-archived before, or has its new deadline in
   * the heap, or no deadline ahead.
   */
  lemma CoversStep(y: Sys, y': Sys, from: Time)
    requires CoversFrom(y, from) && y'.stale == y.stale
    requires forall e :: e in y.heap && e.deadline > from ==> e in y'.heap
    requires forall id :: id in y'.store.db ==> Accounted(y, y', id)
    ensures CoversFrom(y', from)
  {
    if !y'.stale {
      forall id | Tracked(y'.store.db, id) && y'.store.db[id].timeoutAt.value > from
        ensures HeapEntry(y'.store.db[id].timeoutAt.value, id) in y'.heap
      {
        assert Accounted(y, y', id);
      }
    }
  }

  ghost predicate Accounted(y: Sys, y': Sys, id: Id)
    requires id in y'.store.db
  {
    var t' := y'.store.db[id];
    || t'.archivedAt.Some? || t'.timeoutAt.None? || HeapEntry(t'.timeoutAt.value, id) in y'.heap
    || (id in y.store.db && y.store.db[id].archivedAt.None? && y.store.db[id].timeoutAt == t'.timeoutAt)
  }

  /** The same for a step that touches one task only. */
  lemma CoversLocalStep(y: Sys, y': Sys, id: Id, from: Time)
    requires CoversFrom(y, from) && y'.stale == y.stale
    requires forall e :: e in y.heap && e.deadline > from ==> e in y'.heap
    requires forall k :: k != id && k in y'.store.db ==> k in y.store.db && y'.store.db[k] == y.store.db[k]
    requires id in y'.store.db ==> Accounted(y, y', id)
    ensures CoversFrom(y', from)
  {
    forall k | k in y'.store.db ensures Accounted(y, y', k) {
    }
    CoversStep(y, y', from);
  }

  /** With closed terminal states, a committed command leaves an un-archived task its deadline, clears it or sets the one given. */
  lemma CommitDeadline(st: Settings, y: Sys, cmd: Command, ts: seq<Time>, retry: bool)
    requires TerminalsClosed(st.cfg) && Base(st, y) && |ts| == 4
    ensures var (y', o) := Commit(st, y, cmd, ts, retry); var id := cmd.taskId;
      && y'.stale == y.stale && y'.clock == y.clock
      && (id in y'.store.db ==> id in y.store.db)
      && (id in y'.store.db && y'.store.db[id].archivedAt.None? ==>
           && y.store.db[id].archivedAt.None?
           && (y'.store.db[id].timeoutAt == y.store.db[id].timeoutAt || y'.store.db[id].timeoutAt.None?
               || (o == Done && y.store.db[id].state != cmd.target && y'.store.db[id].timeoutAt == cmd.setTimeoutAt)))
  {
    CommitShape(st, y, cmd, ts, retry);
    var id := cmd.taskId;
    if id in y.store.db {
      var t := y.store.db[id];
      AfterIsLive(st.cfg, t, cmd, ts[2], ts[3], st.maxHistory);
      OpenIsLive(st, y, id);
      if st.cfg.IsTerminal(t.state) {
        FromTerminalDenied(st.cfg, t.state, cmd.target);
      }
    }
  }

  /** The deadline of a task that is un-archived after a handler: the old one, none, or one in the heap. */
  ghost predicate KeepsDeadline(y: Sys, y': Sys, id: Id) {
    && y'.stale == y.stale && y'.clock == y.clock
    && (id in y'.store.db ==> id in y.store.db)
    && (id in y'.store.db && y'.store.db[id].archivedAt.None? ==>
         && y.store.db[id].archivedAt.None?
         && (y'.store.db[id].timeoutAt == y.store.db[id].timeoutAt || y'.store.db[id].timeoutAt.None?
             || HeapEntry(y'.store.db[id].timeoutAt.value, id) in y'.heap))
  }

  lemma RetryKeepsDeadline(st: Settings, y: Sys, t: Task, ts: seq<Time>)
    requires TerminalsClosed(st.cfg) && Base(st, y) && |ts| == 4 && t.state in st.cfg.states
    ensures KeepsDeadline(y, Retried(st, y, t, ts), t.id)
  {
    CommitDeadline(st, y, RetryCommand(st, t, ts), ts, true);
  }

  lemma {:induction false} TryTerminalsKeepsDeadline(st: Settings, y: Sys, t: Task, targets: seq<State>, ts: seq<Time>)
    requires Runnable(st.cfg) && TerminalsClosed(st.cfg) && Base(st, y) && |ts| == 4
    ensures var y' := TryTerminals(st, y, t, targets, ts).0; var id := t.id;
      && y'.stale == y.stale && y'.clock == y.clock
      && (id in y'.store.db ==> id in y.store.db)
      && (id in y'.store.db && y'.store.db[id].archivedAt.None? ==>
           && y.store.db[id].archivedAt.None?
           && (y'.store.db[id].timeoutAt == y.store.db[id].timeoutAt || y'.store.db[id].timeoutAt.None?))
    decreases |targets|
  {
    if targets != [] {
      if st.cfg.IsAllowed(t.state, targets[0]) {
        CommitDeadline(st, y, ArchiveCommand(t, targets[0]), ts, false);
        CommitKeepsBase(st, y, ArchiveCommand(t, targets[0]), ts, false);
        TryTerminalsKeepsDeadline(st, Commit(st, y, ArchiveCommand(t, targets[0]), ts, false).0, t, targets[1..], ts);
      } else {
        TryTerminalsKeepsDeadline(st, y, t, targets[1..], ts);
      }
    }
  }

  lemma ResultShape(y: Sys, id: Id, ts: seq<Time>)
    requires |ts| == 4 && KeysMatch(y.store.db)
    ensures var y' := Release(ResultWritten(y, id, ts));
      && y'.heap == y.heap && y'.stale == y.stale && y'.clock == y.clock && y'.ticks == y.ticks
      && y'.store.db.Keys == y.store.db.Keys
      && (forall k :: k != id && k in y.store.db ==> y'.store.db[k] == y.store.db[k])
      && (id in y.store.db ==>
           && y'.store.db[id].archivedAt == y.store.db[id].archivedAt
           && y'.store.db[id].timeoutAt == y.store.db[id].timeoutAt)
  {
  }

  lemma ArchiveKeepsDeadline(st: Settings, y: Sys, t: Task, ts: seq<Time>)
    requires Runnable(st.cfg) && TerminalsClosed(st.cfg) && Base(st, y) && |ts| == 4
    ensures KeepsDeadline(y, ArchivedOnTimeout(st, y, t, ts), t.id)
  {
    TryTerminalsKeepsDeadline(st, y, t, st.cfg.terminalStates, ts);
    TryTerminalsLocal(st, y, t, st.cfg.terminalStates, ts);
    ResultShape(TryTerminals(st, y, t, st.cfg.terminalStates, ts).0, t.id, ts);
  }

  lemma TimeoutKeepsDeadline(st: Settings, y: Sys, id: Id, state: State, ts: seq<Time>)
    requires Runnable(st.cfg) && TerminalsClosed(st.cfg) && Base(st, y) && |ts| == 4
    ensures KeepsDeadline(y, TimeoutHandled(st, y, id, state, ts), id)
  {
    if id in y.store.db && y.store.db[id].state in st.cfg.states {
      var t := y.store.db[id];
      if st.cfg.states[t.state].autoRetry && t.retryCount < st.cfg.states[t.state].maxRetries {
        RetryKeepsDeadline(st, y, t, ts);
      } else {
        ArchiveKeepsDeadline(st, y, t, ts);
      }
    }
  }

  lemma PopKeepsCovers(st: Settings, y: Sys, e: HeapEntry, now: Time, ts: seq<Time>, from: Time)
    requires Runnable(st.cfg) && TerminalsClosed(st.cfg) && Base(st, y) && CoversFrom(y, from)
    requires CanPop(y, e, now, ts) && now <= from
    ensures CoversFrom(Popped(st, y, e, now, ts), from)
  {
    PopIsLocal(st, y, e, now, ts);
    var z, y' := y.(heap := y.heap - multiset{e}, clock := ts[3]), Popped(st, y, e, now, ts);
    FewerTasksKeepBase(st, y, z);
    if Fires(y, e, now) {
      TimeoutKeepsDeadline(st, z, e.id, y.store.db[e.id].state, ts);
    }
    PopCovers(y, z, y', e, now, from);
  }

  lemma PopCovers(y: Sys, z: Sys, y': Sys, e: HeapEntry, now: Time, from: Time)
    requires CoversFrom(y, from) && e in y.heap && e.deadline <= now <= from
    requires z == y.(heap := y.heap - multiset{e}, clock := z.clock)
    requires RoundEffect(y.(heap := y.heap - multiset{e}), y', e, now) && (y' == z || KeepsDeadline(z, y', e.id))
    ensures CoversFrom(y', from)
  {
    CoversLocalStep(y, y', e.id, from);
  }

  lemma ReceiveKeepsCovers(st: Settings, y: Sys, cmd: Command, ts: seq<Time>, from: Time)
    requires TerminalsClosed(st.cfg) && Base(st, y) && CoversFrom(y, from) && Enabled(st, y, Receive(cmd, ts))
    ensures CoversFrom(CommandHandled(st, y, cmd, ts), from)
  {
    CommitKeepsCovers(st, y, cmd, ts, from);
    ReceiveShape(st, y, cmd, ts);
    SameCovers(y, Commit(st, y, cmd, ts, false).0, CommandHandled(st, y, cmd, ts), from);
  }

  lemma CommitKeepsCovers(st: Settings, y: Sys, cmd: Command, ts: seq<Time>, from: Time)
    requires TerminalsClosed(st.cfg) && Base(st, y) && CoversFrom(y, from) && |ts| == 4 && cmd.setTimeoutAt.None?
    ensures CoversFrom(Commit(st, y, cmd, ts, false).0, from)
  {
    CommitDeadline(st, y, cmd, ts, false);
    CommitIsLocal(st, y, cmd, ts, false);
    CoversLocalStep(y, Commit(st, y, cmd, ts, false).0, cmd.taskId, from);
  }

  lemma CommitIsLocal(st: Settings, y: Sys, cmd: Command, ts: seq<Time>, retry: bool)
    requires KeysMatch(y.store.db) && |ts| == 4
    ensures var y' := Commit(st, y, cmd, ts, retry).0;
      && y'.heap == y.heap
      && forall k :: k != cmd.taskId && k in y'.store.db ==> k in y.store.db && y'.store.db[k] == y.store.db[k]
  {
    CommitShape(st, y, cmd, ts, retry);
  }

  lemma SameCovers(y: Sys, mid: Sys, y': Sys, from: Time)
    requires CoversFrom(y, from) && CoversFrom(mid, from)
    requires (y'.store == y.store && y'.heap == y.heap && y'.stale == y.stale)
          || (y'.store == mid.store && y'.heap == mid.heap && y'.stale == mid.stale)
    ensures CoversFrom(y', from)
  {
  }

  lemma SetTimeoutKeepsCovers(st: Settings, y: Sys, copy: Task, ts: seq<Time>, from: Time)
    requires Base(st, y) && CoversFrom(y, from) && Enabled(st, y, SetTimeout(copy, ts))
    ensures CoversFrom(TimeoutSet(st, y, copy, ts), from)
  {
    SetTimeoutShape(st, y, copy, ts);
    if copy.id in y.store.db && copy.version == y.store.db[copy.id].version {
      WriteCovers(y, TimeoutSet(st, y, copy, ts), WithDeadline(st, copy, ts), copy.id, from);
    }
  }

  /** Writing one task and pushing its deadline. */
  lemma WriteCovers(y: Sys, y': Sys, t: Task, id: Id, from: Time)
    requires CoversFrom(y, from) && y'.stale == y.stale && t.timeoutAt.Some?
    requires y'.store.db == y.store.db[id := t] && y'.heap == y.heap + multiset{HeapEntry(t.timeoutAt.value, id)}
    ensures CoversFrom(y', from)
  {
    CoversLocalStep(y, y', id, from);
  }

  lemma CreateKeepsCovers(st: Settings, y: Sys, spec: Spec, ts: seq<Time>, from: Time)
    requires Runnable(st.cfg) && CoversFrom(y, from) && Enabled(st, y, Create(spec, ts))
    ensures CoversFrom(Admitted(st, y, spec, ts), from)
  {
    CreationWrites(st.cfg, y.store, spec, ts[0], ts[1], st.maxHistory);
    CoversLocalStep(y, Admitted(st, y, spec, ts), spec.id, from);
  }

  lemma SweepStartKeepsCovers(st: Settings, y: Sys, r: Time, now: Time, from: Time)
    requires CoversFrom(y, from) && r <= from
    ensures CoversFrom(SweepStarted(st, y, r, now), from) && !SweepStarted(st, y, r, now).stale
  {
    var y' := SweepStarted(st, y, r, now);
    if NeedsRebuild(st, y) {
      forall id | Tracked(y.store.db, id) && y.store.db[id].timeoutAt.value > from
        ensures HeapEntry(y.store.db[id].timeoutAt.value, id) in y'.heap
      {
        FreshEntries(y.store.db, r, EntryFor(y.store.db, id, r));
      }
    } else {
      CoversStep(y, y', from);
    }
  }

  /** Any event keeps the deadlines after `from` covered, if what it reads of the clock for the heap is not later. */
  lemma StepKeepsCovers(st: Settings, y: Sys, ev: Event, from: Time)
    requires Runnable(st.cfg) && TerminalsClosed(st.cfg) && Base(st, y) && CoversFrom(y, from) && Enabled(st, y, ev)
    requires (ev.Pop? ==> ev.now <= from) && (ev.SweepStart? ==> ev.r <= from)
    ensures CoversFrom(Apply(st, y, ev), from)
  {
    match ev
    case Create(spec, ts) => CreateKeepsCovers(st, y, spec, ts, from);
    case SetTimeout(copy, ts) => SetTimeoutKeepsCovers(st, y, copy, ts, from);
    case Receive(cmd, ts) => ReceiveKeepsCovers(st, y, cmd, ts, from);
    case SweepStart(r, now) => SweepStartKeepsCovers(st, y, r, now, from);
    case Pop(e, now, ts) => PopKeepsCovers(st, y, e, now, ts, from);
    case Cleanup(ids, cutoff) =>
      CleanupKeepsIndex(y.store, ids, cutoff);
      CoversStep(y, Apply(st, y, ev), from);
    case _ =>
  }

  /** Only a restart throws the heap away. */
  lemma StaysBuilt(st: Settings, y: Sys, ev: Event)
    requires Enabled(st, y, ev) && !y.stale && !ev.Restart?
    ensures !Apply(st, y, ev).stale
  {
    if ev.Pop? {
      PopTicks(st, y, ev.entry, ev.now, ev.ts);
    } else if ev.Receive? {
      ReceiveShape(st, y, ev.cmd, ev.ts);
    } else if ev.SetTimeout? {
      SetTimeoutShape(st, y, ev.copy, ev.ts);
    }
  }

  /** The clock never runs backwards. */
  lemma ClockMovesOn(st: Settings, y: Sys, ev: Event)
    requires Enabled(st, y, ev)
    ensures y.clock <= Apply(st, y, ev).clock
  {
    if ev.Pop? {
      PopTicks(st, y, ev.entry, ev.now, ev.ts);
    } else if ev.Receive? {
      ReceiveShape(st, y, ev.cmd, ev.ts);
    } else if ev.SetTimeout? {
      SetTimeoutShape(st, y, ev.copy, ev.ts);
    }
  }

  /** With closed terminal states, the heap covers every deadline ahead in every run, from the first rebuild on. */
  lemma {:induction false} HeapCoversDeadlines(st: Settings, evs: seq<Event>)
    requires Runnable(st.cfg) && TerminalsClosed(st.cfg) && IsRunOf(st, evs)
    ensures Covers(StateAfter(st, evs))
    decreases |evs|
  {
    if evs != [] {
      var pre, ev := evs[..|evs| - 1], evs[|evs| - 1];
      var y := StateAfter(st, pre);
      HeapCoversDeadlines(st, pre);
      RunsKeepBase(st, pre);
      ClockMovesOn(st, y, ev);
      StepKeepsCovers(st, y, ev, Apply(st, y, ev).clock);
    }
  }

  // ---------- sweeps among other handlers ----------

  /** The last events of the run: one sweep that started at `now`, and anything but a restart in between. */
  ghost predicate AmidSweep(evs: seq<Event>, n: nat, now: Time) {
    && 0 < n <= |evs| && evs[n - 1].SweepStart? && evs[n - 1].now == now
    && forall i :: n <= i < |evs| ==> InSweep(evs[i], now)
  }

  predicate InSweep(ev: Event, now: Time) {
    !ev.SweepStart? && !ev.Restart? && (ev.Pop? ==> ev.now == now)
  }

  /** The rounds among the events from n on. */
  function RoundsSince(evs: seq<Event>, n: nat): nat {
    if |evs| <= n then 0 else RoundsSince(evs[..|evs| - 1], n) + if evs[|evs| - 1].Pop? then 1 else 0
  }

  /** A round takes one due entry away; no other handler adds or removes any. */
  lemma StepTakesDue(st: Settings, y: Sys, ev: Event, now: Time)
    requires Base(st, y) && Enabled(st, y, ev) && InSweep(ev, now) && now <= y.clock
    ensures DueCount(Apply(st, y, ev).heap, now) + (if ev.Pop? then 1 else 0) == DueCount(y.heap, now)
  {
    match ev
    case Pop(e, _, ts) => PopTakesOneDue(st, y, e, now, ts);
    case Receive(cmd, ts) =>
      ReceiveShape(st, y, cmd, ts);
      CommitShape(st, y, cmd, ts, false);
    case SetTimeout(copy, ts) =>
      SetTimeoutShape(st, y, copy, ts);
      DueAdd(y.heap, HeapEntry(FirstDeadline(st, copy, ts), copy.id), now);
    case _ =>
  }

  /** The state the sweep that starts with event n - 1 begins with. */
  ghost function SweepBase(st: Settings, evs: seq<Event>, n: nat): Sys
    requires IsRunOf(st, evs) && n <= |evs|
    decreases |evs|
  {
    if |evs| == n then StateAfter(st, evs) else SweepBase(st, evs[..|evs| - 1], n)
  }

  /**
   * In every run, a sweep with any other handlers in between: rounds made and entries still due are
   * together as many as were due at its start, and from its first reading of the clock on every
   * deadline stays covered.
   */
  lemma {:induction false} SweepAmongOthers(st: Settings, evs: seq<Event>, n: nat, now: Time)
    requires Runnable(st.cfg) && IsRunOf(st, evs) && AmidSweep(evs, n, now)
    ensures var y := StateAfter(st, evs);
      && Base(st, y) && now <= y.clock && !y.stale
      && RoundsSince(evs, n) + DueCount(y.heap, now) == DueCount(SweepBase(st, evs, n).heap, now)
      && (TerminalsClosed(st.cfg) ==> CoversFrom(y, now))
    decreases |evs|
  {
    var pre, ev := evs[..|evs| - 1], evs[|evs| - 1];
    var y := StateAfter(st, pre);
    RunsKeepBase(st, evs);
    RunsKeepBase(st, pre);
    if |evs| == n {
      if TerminalsClosed(st.cfg) {
        HeapCoversDeadlines(st, evs);
      }
    } else {
      SweepAmongOthers(st, pre, n, now);
      assert InSweep(evs[|evs| - 1], now);
      StepTakesDue(st, y, ev, now);
      ClockMovesOn(st, y, ev);
      StaysBuilt(st, y, ev);
      if TerminalsClosed(st.cfg) {
        StepKeepsCovers(st, y, ev, now);
      }
    }
  }

  // ---------- when the next sweep is due ----------

  const MIN_WAKE: int := 100_000_000

  function Max(a: int, b: int): int {
    if a < b then b else a
  }

  /** The wait a sweep returns: until the smallest deadline, or the check interval, but at least 100ms. */
  ghost predicate IsWake(st: Settings, heap: multiset<HeapEntry>, now: Time, wait: int) {
    if heap == multiset{} then wait == Max(st.checkInterval, MIN_WAKE)
    else exists e :: e in heap && (forall x :: x in heap ==> e.deadline <= x.deadline)
                     && wait == Max(Max(e.deadline - now, 0), MIN_WAKE)
  }

  lemma CoveredWake(st: Settings, y: Sys, now: Time, wait: int, id: Id)
    requires CoversFrom(y, now) && !y.stale && IsWake(st, y.heap, now, wait)
    ensures var db := y.store.db;
      id in db && db[id].archivedAt == None && db[id].timeoutAt.Some? && db[id].timeoutAt.value > now ==>
        now + wait <= db[id].timeoutAt.value || wait <= 100_000_000
  {
    if Tracked(y.store.db, id) && y.store.db[id].timeoutAt.value > now {
      assert HeapEntry(y.store.db[id].timeoutAt.value, id) in y.heap;
    }
  }

  /**
   * The wait a sweep returns, whatever ran between its rounds: the next sweep comes no later than any
   * deadline after the moment this one read the clock, or 100ms after that moment where this is later.
   */
  lemma WakesInTime(st: Settings, evs: seq<Event>, n: nat, now: Time, wait: int, id: Id)
    requires Runnable(st.cfg) && TerminalsClosed(st.cfg) && IsRunOf(st, evs) && AmidSweep(evs, n, now)
    requires IsWake(st, StateAfter(st, evs).heap, now, wait)
    ensures var db := StateAfter(st, evs).store.db;
      id in db && db[id].archivedAt == None && db[id].timeoutAt.Some? && db[id].timeoutAt.value > now ==>
        now + wait <= db[id].timeoutAt.value || wait <= 100_000_000
  {
    SweepAmongOthers(st, evs, n, now);
    CoveredWake(st, StateAfter(st, evs), now, wait, id);
  }

  /**
   * The check interval does not cap the wait, as the comment in the source has it: while entries are
   * left, the wait stays within the interval exactly if some entry falls due within it.
   */
  lemma WakeIsNotCapped(st: Settings, heap: multiset<HeapEntry>, now: Time, wait: int)
    requires IsWake(st, heap, now, wait) && heap != multiset{}
    ensures var cap := Max(st.checkInterval, MIN_WAKE);
      wait <= cap <==> exists e :: e in heap && e.deadline <= now + cap
  {
    var e :| e in heap && (forall x :: x in heap ==> e.deadline <= x.deadline)
             && wait == Max(Max(e.deadline - now, 0), MIN_WAKE);
  }

  // ---------- how often the heap is rebuilt ----------

  /** Sweeps started since the last one that rebuilt the heap, or since the process started. */
  ghost function SweepsWithoutRebuild(st: Settings, evs: seq<Event>): nat
    requires IsRunOf(st, evs)
    decreases |evs|
  {
    if evs == [] then 0
    else
      var pre, ev := evs[..|evs| - 1], evs[|evs| - 1];
      match ev
      case SweepStart(_, _) => if NeedsRebuild(st, StateAfter(st, pre)) then 0 else SweepsWithoutRebuild(st, pre) + 1
      case Restart(_, _, _) => 0
      case _ => SweepsWithoutRebuild(st, pre)
  }

  lemma {:induction false} TryTerminalsTicks(st: Settings, y: Sys, t: Task, targets: seq<State>, ts: seq<Time>)
    requires |ts| == 4
    ensures var y' := TryTerminals(st, y, t, targets, ts).0;
      y'.ticks == y.ticks && y'.clock == y.clock && y'.stale == y.stale
    decreases |targets|
  {
    if targets != [] {
      if st.cfg.IsAllowed(t.state, targets[0]) {
        TryTerminalsTicks(st, Commit(st, y, ArchiveCommand(t, targets[0]), ts, false).0, t, targets[1..], ts);
      } else {
        TryTerminalsTicks(st, y, t, targets[1..], ts);
      }
    }
  }

  lemma PopTicks(st: Settings, y: Sys, e: HeapEntry, now: Time, ts: seq<Time>)
    requires |ts| == 4
    ensures var y' := Popped(st, y, e, now, ts); y'.ticks == y.ticks && y'.clock == ts[3] && y'.stale == y.stale
  {
    if Fires(y, e, now) {
      var z := y.(heap := y.heap - multiset{e}, clock := ts[3]);
      TryTerminalsTicks(st, z, y.store.db[e.id], st.cfg.terminalStates, ts);
    }
  }

  /** The heap is rebuilt at least once in every `rebuildInterval` sweeps. */
  lemma {:induction false} RebuildsAreFrequent(st: Settings, evs: seq<Event>)
    requires st.rebuildInterval > 0 && IsRunOf(st, evs)
    ensures SweepsWithoutRebuild(st, evs) == StateAfter(st, evs).ticks < st.rebuildInterval
    decreases |evs|
  {
    if evs != [] {
      var pre, ev := evs[..|evs| - 1], evs[|evs| - 1];
      RebuildsAreFrequent(st, pre);
      if ev.Pop? {
        PopTicks(st, StateAfter(st, pre), ev.entry, ev.now, ev.ts);
      }
    }
  }
}
