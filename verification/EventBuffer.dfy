/** The buffered data source of pkg/datasource/buffered.go: ring buffer, drop policies, interleavings. */
module EventBuffer {
  import opened StateMachine
  import opened Sequences

  // ---------- the ring buffer ----------

  /** What the buffer holds after a push: a full buffer loses its oldest event. */
  function AfterPush<T>(items: seq<T>, capacity: nat, e: T): seq<T> {
    if capacity == 0 then items
    else if |items| >= capacity then items[1..] + [e]
    else items + [e]
  }

  class RingBuffer<T(0)> {
    const capacity: nat
    const data: array<T>
    var head: nat
    var tail: nat
    var size: nat

    constructor (capacity: nat)
      ensures Valid() && fresh(data) && this.capacity == capacity && Items() == []
    {
      this.capacity := capacity;
      data := new T[capacity];
      head, tail, size := 0, 0, 0;
    }

    ghost predicate Valid()
      reads this
    {
      && data.Length == capacity && size <= capacity
      && (capacity == 0 ==> head == 0 && tail == 0)
      && (capacity > 0 ==> head < capacity && tail == (if head + size < capacity then head + size else head + size - capacity))
    }

    /** The buffered events, oldest first. */
    ghost function Items(): (s: seq<T>)
      requires Valid()
      reads this, data
      ensures |s| == size
    {
      if head + size <= capacity then data[head..head + size] else data[head..] + data[..head + size - capacity]
    }

    /** The result is the event itself if there is no room at all, otherwise nothing, even on eviction. */
    method Push(event: T) returns (dropped: Option<T>)
      requires Valid()
      modifies this, data
      ensures Valid() && Items() == AfterPush(old(Items()), capacity, event)
      ensures dropped == if capacity == 0 then Some(event) else None
    {
      if size == capacity {
        if capacity == 0 {
          return Some(event);
        }
        ghost var lost := DropHead();
      }
      StoreAtTail(event);
      dropped := None;
    }

    method DropHead() returns (event: T)
      requires Valid() && size > 0
      modifies this`head, this`size
      ensures Valid() && event == old(Items()[0]) && Items() == old(Items()[1..])
    {
      event := data[head];
      WrapsOnce(head + 1, capacity);
      head := (head + 1) % capacity;
      size := size - 1;
    }

    method StoreAtTail(event: T)
      requires Valid() && size < capacity
      modifies this`tail, this`size, data
      ensures Valid() && Items() == old(Items()) + [event]
    {
      data[tail] := event;
      WrapsOnce(tail + 1, capacity);
      tail := (tail + 1) % capacity;
      size := size + 1;
    }

    method Pop() returns (event: Option<T>)
      requires Valid()
      modifies this
      ensures Valid()
      ensures old(Items()) == [] ==> event == None && Items() == []
      ensures old(Items()) != [] ==> event == Some(old(Items()[0])) && Items() == old(Items()[1..])
    {
      if size == 0 {
        return None;
      }
      var e := DropHead();
      event := Some(e);
    }
  }

  // ---------- one producer, one consumer ----------

  datatype Policy = DropOldest | DropNewest | Block

  /** Where the producer is: waiting for input, or holding an event it found room for or must retry. */
  datatype Producer<T> = Idle | Holding(event: T) | Cleared(event: T)

  /**
   * `received` are the events taken from the source, `accepted` those pushed into the buffer,
   * `delivered` those popped by the consumer, `evicted` counts events a push threw out.
   */
  datatype Pipe<T> = Pipe(
    items: seq<T>, producer: Producer<T>, received: seq<T>, accepted: seq<T>, delivered: seq<T>, evicted: nat)

  datatype Step<T> = Receive(event: T) | Check | Store | Consume

  function Pushed<T>(p: Pipe<T>, capacity: nat, e: T): Pipe<T> {
    if capacity == 0 then p
    else p.(items := AfterPush(p.items, capacity, e), accepted := p.accepted + [e],
            evicted := p.evicted + if |p.items| >= capacity then 1 else 0)
  }

  /**
   * The two loops, one atomic action at a time. The fullness check and the push are separate
   * actions, so the consumer may run in between.
   */
  predicate CanDo<T>(p: Pipe<T>, step: Step<T>) {
    match step
    case Receive(_) => p.producer.Idle?
    case Check => p.producer.Holding?
    case Store => p.producer.Cleared?
    case Consume => true
  }

  function Done<T>(policy: Policy, capacity: nat, p: Pipe<T>, step: Step<T>): Pipe<T>
    requires CanDo(p, step)
  {
    match step
    case Receive(e) =>
      p.(received := p.received + [e], producer := if policy == DropOldest then Cleared(e) else Holding(e))
    case Check =>
      if |p.items| >= capacity then (if policy == DropNewest then p.(producer := Idle) else p)
      else p.(producer := Cleared(p.producer.event))
    case Store => Pushed(p, capacity, p.producer.event).(producer := Idle)
    case Consume =>
      if p.items == [] then p else p.(items := p.items[1..], delivered := p.delivered + [p.items[0]])
  }

  function Start<T>(): Pipe<T> {
    Pipe([], Idle, [], [], [], 0)
  }

  predicate IsPipeRun<T>(policy: Policy, capacity: nat, steps: seq<Step<T>>)
    decreases |steps|, 0
  {
    steps == [] ||
    (IsPipeRun(policy, capacity, steps[..|steps| - 1]) && CanDo(PipeAfter(policy, capacity, steps[..|steps| - 1]), steps[|steps| - 1]))
  }

  function PipeAfter<T>(policy: Policy, capacity: nat, steps: seq<Step<T>>): Pipe<T>
    requires IsPipeRun(policy, capacity, steps)
    decreases |steps|, 1
  {
    if steps == [] then Start()
    else Done(policy, capacity, PipeAfter(policy, capacity, steps[..|steps| - 1]), steps[|steps| - 1])
  }

  /** `a` is what is left of `b` after crossing out some events. */
  predicate Subsequence<T(==)>(a: seq<T>, b: seq<T>) {
    if a == [] then true
    else if b == [] then false
    else if a[|a| - 1] == b[|b| - 1] && Subsequence(a[..|a| - 1], b[..|b| - 1]) then true
    else Subsequence(a, b[..|b| - 1])
  }

  lemma SubsequenceSkip<T>(a: seq<T>, b: seq<T>, x: T)
    requires Subsequence(a, b)
    ensures Subsequence(a, b + [x])
  {
    assert (b + [x])[..|b|] == b;
  }

  lemma SubsequenceTake<T>(a: seq<T>, b: seq<T>, x: T)
    requires Subsequence(a, b)
    ensures Subsequence(a + [x], b + [x])
  {
    assert (b + [x])[..|b|] == b && (a + [x])[..|a|] == a;
  }

  // ---------- nothing accepted is lost ----------

  function Held<T>(p: Pipe<T>): seq<T> {
    if p.producer.Idle? then [] else [p.producer.event]
  }

  ghost predicate LosslessInv<T>(policy: Policy, capacity: nat, p: Pipe<T>) {
    && p.evicted == 0 && p.accepted == p.delivered + p.items && |p.items| <= capacity
    && (p.producer.Cleared? ==> |p.items| < capacity)
    && (policy == Block ==> p.received == p.accepted + Held(p))
  }

  lemma StepIsLossless<T>(policy: Policy, capacity: nat, p: Pipe<T>, step: Step<T>)
    requires policy != DropOldest && LosslessInv(policy, capacity, p) && CanDo(p, step)
    ensures LosslessInv(policy, capacity, Done(policy, capacity, p, step))
  {
    if step.Consume? && p.items != [] {
      assert p.delivered + p.items == (p.delivered + [p.items[0]]) + p.items[1..];
    }
  }

  /**
   * Under DropNewest and Block no accepted event is ever evicted: in every interleaving what was
   * accepted is what was delivered followed by what is buffered, in order. Under Block every event
   * received has been accepted, except the one the producer still holds.
   */
  lemma {:induction false} AcceptedIsNeverLost<T>(policy: Policy, capacity: nat, steps: seq<Step<T>>)
    requires policy != DropOldest && IsPipeRun(policy, capacity, steps)
    ensures LosslessInv(policy, capacity, PipeAfter(policy, capacity, steps))
    decreases |steps|
  {
    if steps != [] {
      AcceptedIsNeverLost(policy, capacity, steps[..|steps| - 1]);
      StepIsLossless(policy, capacity, PipeAfter(policy, capacity, steps[..|steps| - 1]), steps[|steps| - 1]);
    }
  }

  // ---------- dropping the oldest ----------

  ghost predicate OldestInv<T>(capacity: nat, p: Pipe<T>) {
    && |p.items| <= capacity
    && |p.accepted| == |p.delivered| + p.evicted + |p.items|
    && p.items == p.accepted[|p.accepted| - |p.items|..]
    && Subsequence(p.delivered, p.accepted[..|p.accepted| - |p.items|])
  }

  lemma ConsumeKeepsOldest<T>(capacity: nat, p: Pipe<T>)
    requires OldestInv(capacity, p) && p.items != []
    ensures OldestInv(capacity, p.(items := p.items[1..], delivered := p.delivered + [p.items[0]]))
  {
    var n := |p.accepted| - |p.items|;
    assert p.accepted[..n + 1] == p.accepted[..n] + [p.items[0]];
    SubsequenceTake(p.delivered, p.accepted[..n], p.items[0]);
  }

  lemma PushKeepsOldest<T>(capacity: nat, p: Pipe<T>, e: T)
    requires OldestInv(capacity, p)
    ensures OldestInv(capacity, Pushed(p, capacity, e))
  {
    if capacity > 0 {
      var n := |p.accepted| - |p.items|;
      var accepted := p.accepted + [e];
      assert accepted[..n] == p.accepted[..n];
      if |p.items| >= capacity {
        assert accepted[..n + 1] == p.accepted[..n] + [p.items[0]];
        SubsequenceSkip(p.delivered, p.accepted[..n], p.items[0]);
      }
    }
  }

  lemma StepKeepsOldest<T>(policy: Policy, capacity: nat, p: Pipe<T>, step: Step<T>)
    requires OldestInv(capacity, p) && CanDo(p, step)
    ensures OldestInv(capacity, Done(policy, capacity, p, step))
  {
    match step
    case Store => PushKeepsOldest(capacity, p, p.producer.event);
    case Consume => if p.items != [] { ConsumeKeepsOldest(capacity, p); }
    case _ => SamePipe(capacity, p, Done(policy, capacity, p, step));
  }

  lemma SamePipe<T>(capacity: nat, p: Pipe<T>, q: Pipe<T>)
    requires OldestInv(capacity, p) && p.items == q.items && p.accepted == q.accepted && p.delivered == q.delivered
    requires p.evicted == q.evicted
    ensures OldestInv(capacity, q)
  {
  }

  /**
   * Under every policy, in every interleaving, the consumer gets the accepted events in order with
   * some left out, and pushes are pops plus evictions plus what is buffered.
   */
  lemma {:induction false} DeliveryKeepsOrder<T>(policy: Policy, capacity: nat, steps: seq<Step<T>>)
    requires IsPipeRun(policy, capacity, steps)
    ensures OldestInv(capacity, PipeAfter(policy, capacity, steps))
    decreases |steps|
  {
    if steps != [] {
      DeliveryKeepsOrder(policy, capacity, steps[..|steps| - 1]);
      StepKeepsOldest(policy, capacity, PipeAfter(policy, capacity, steps[..|steps| - 1]), steps[|steps| - 1]);
    }
  }

  // ---------- where every event went ----------

  /** The step turns an event away: DropNewest finds the buffer full, or there is no room at all to push into. */
  predicate Refuses<T>(policy: Policy, capacity: nat, p: Pipe<T>, step: Step<T>) {
    (step.Check? && policy == DropNewest && |p.items| >= capacity) || (step.Store? && capacity == 0)
  }

  function Refusals<T>(policy: Policy, capacity: nat, steps: seq<Step<T>>): nat
    requires IsPipeRun(policy, capacity, steps)
    decreases |steps|
  {
    if steps == [] then 0
    else
      var pre, step := steps[..|steps| - 1], steps[|steps| - 1];
      Refusals(policy, capacity, pre) + if Refuses(policy, capacity, PipeAfter(policy, capacity, pre), step) then 1 else 0
  }

  /** The consumer's turns that found an event. */
  function Deliveries<T>(policy: Policy, capacity: nat, steps: seq<Step<T>>): nat
    requires IsPipeRun(policy, capacity, steps)
    decreases |steps|
  {
    if steps == [] then 0
    else
      var pre, step := steps[..|steps| - 1], steps[|steps| - 1];
      Deliveries(policy, capacity, pre) + if step.Consume? && PipeAfter(policy, capacity, pre).items != [] then 1 else 0
  }

  /** Accepted and held events are an in-order part of the received ones; `refused` of them were turned away. */
  ghost predicate SourceInv<T>(p: Pipe<T>, refused: nat, deliveries: nat) {
    && |p.received| == |p.accepted| + |Held(p)| + refused && |p.delivered| == deliveries
    && Subsequence(p.accepted + Held(p), p.received)
  }

  lemma {:induction false} SubsequenceDrop<T>(a: seq<T>, x: T, b: seq<T>)
    requires Subsequence(a + [x], b)
    ensures Subsequence(a, b)
  {
    assert (a + [x])[..|a|] == a;
    if b != [] {
      if x == b[|b| - 1] && Subsequence(a, b[..|b| - 1]) {
        assert b[..|b| - 1] + [b[|b| - 1]] == b;
        SubsequenceSkip(a, b[..|b| - 1], b[|b| - 1]);
      } else {
        SubsequenceDrop(a, x, b[..|b| - 1]);
        assert b[..|b| - 1] + [b[|b| - 1]] == b;
        SubsequenceSkip(a, b[..|b| - 1], b[|b| - 1]);
      }
    }
  }

  lemma StepKeepsSource<T>(policy: Policy, capacity: nat, p: Pipe<T>, step: Step<T>, refused: nat, deliveries: nat)
    requires SourceInv(p, refused, deliveries) && CanDo(p, step)
    ensures SourceInv(Done(policy, capacity, p, step),
      refused + (if Refuses(policy, capacity, p, step) then 1 else 0),
      deliveries + (if step.Consume? && p.items != [] then 1 else 0))
  {
    var q := Done(policy, capacity, p, step);
    match step
    case Receive(e) =>
      assert p.accepted + Held(p) == p.accepted;
      SubsequenceTake(p.accepted, p.received, e);
    case Check =>
      assert p.accepted + [] == p.accepted;
      SubsequenceDrop(p.accepted, p.producer.event, p.received);
    case Store =>
      assert p.accepted + [] == p.accepted && (p.accepted + [p.producer.event]) + [] == p.accepted + [p.producer.event];
      SubsequenceDrop(p.accepted, p.producer.event, p.received);
    case Consume =>
  }

  /**
   * Nothing disappears between source and buffer: in every run each event received was accepted, is
   * still held, or was turned away by a full buffer, and the accepted ones keep their order. Every
   * turn of the consumer that finds an event delivers one.
   */
  lemma {:induction false} SourceIsAccountedFor<T>(policy: Policy, capacity: nat, steps: seq<Step<T>>)
    requires IsPipeRun(policy, capacity, steps)
    ensures SourceInv(PipeAfter(policy, capacity, steps), Refusals(policy, capacity, steps), Deliveries(policy, capacity, steps))
    decreases |steps|
  {
    if steps != [] {
      var pre := steps[..|steps| - 1];
      SourceIsAccountedFor(policy, capacity, pre);
      StepKeepsSource(policy, capacity, PipeAfter(policy, capacity, pre), steps[|steps| - 1],
                      Refusals(policy, capacity, pre), Deliveries(policy, capacity, pre));
    }
  }
}
