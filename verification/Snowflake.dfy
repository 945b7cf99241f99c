/**
 * The Snowflake ID generator of pkg/common/id.go, under arbitrary clock readings: the clock may
 * stall, jump forward or run backwards.
 */
module Snowflake {
  import opened RetryTiming

  const EPOCH: int := 1_700_000_000_000
  const MAX_MACHINE: int := 1023
  const MAX_SEQUENCE: nat := 4095
  const TIME_LIMIT: int := 0x200_0000_0000

  // ---------- bit operations on unsigned numbers ----------

  function Or(a: nat, b: nat): nat
    decreases a + b
  {
    if a == 0 && b == 0 then 0
    else 2 * Or(a / 2, b / 2) + if a % 2 == 1 || b % 2 == 1 then 1 else 0
  }

  function And(a: nat, b: nat): nat {
    if a == 0 then 0
    else 2 * And(a / 2, b / 2) + if a % 2 == 1 && b % 2 == 1 then 1 else 0
  }

  /** Bits that do not overlap are added. */
  lemma {:induction false} OrDisjoint(q: nat, b: nat, k: nat)
    requires b < Pow2(k)
    ensures Or(q * Pow2(k), b) == q * Pow2(k) + b
  {
    if k == 0 {
      OrZero(q);
    } else {
      var a := q * Pow2(k);
      assert a == 2 * (q * Pow2(k - 1)) by {
        assert Pow2(k) == 2 * Pow2(k - 1);
      }
      assert a / 2 == q * Pow2(k - 1) && a % 2 == 0;
      OrDisjoint(q, b / 2, k - 1);
      if a == 0 && b == 0 {
      } else {
        assert Or(a, b) == 2 * Or(a / 2, b / 2) + b % 2;
      }
    }
  }

  lemma {:induction false} OrZero(q: nat)
    ensures Or(q, 0) == q
  {
    if q > 0 {
      OrZero(q / 2);
    }
  }

  lemma AndOdd(a: nat, p: nat)
    requires p > 0 && a > 0
    ensures And(a, 2 * p - 1) == 2 * And(a / 2, p - 1) + a % 2
  {
    assert (2 * p - 1) / 2 == p - 1 && (2 * p - 1) % 2 == 1;
  }

  /** Masking with k ones is the remainder. */
  lemma {:induction false} AndMask(a: nat, k: nat)
    ensures And(a, Pow2(k) - 1) == a % Pow2(k)
  {
    if k == 0 {
      AndZero(a);
    } else if a > 0 {
      var p := Pow2(k - 1);
      AndMask(a / 2, k - 1);
      AndOdd(a, p);
      ModHalf(a, p);
    } else {
      Remainder(0, Pow2(k), 0, 0);
    }
  }

  lemma {:induction false} AndZero(a: nat)
    ensures And(a, 0) == 0
  {
    if a > 0 {
      AndZero(a / 2);
    }
  }

  lemma ModHalf(a: nat, p: nat)
    requires p > 0
    ensures a % (2 * p) == 2 * (a / 2 % p) + a % 2
  {
    var q, r := a / 2 / p, a / 2 % p;
    assert a / 2 == p * q + r;
    assert a == 2 * (a / 2) + a % 2;
    assert a == (2 * p) * q + (2 * r + a % 2);
    Remainder(a, 2 * p, q, 2 * r + a % 2);
  }

  lemma {:induction false} AtLeastOnce(m: int, d: nat)
    requires m > 0 && d > 0
    ensures m * d >= m
  {
    if d > 1 {
      AtLeastOnce(m, d - 1);
      assert m * d == m * (d - 1) + m;
    }
  }

  lemma Remainder(a: int, m: int, q: int, r: int)
    requires m > 0 && a == m * q + r && 0 <= r < m
    ensures a % m == r && a / m == q
  {
    var d := a / m - q;
    assert a == m * (a / m) + a % m;
    assert m * (a / m) - m * q == m * d;
    if d > 0 {
      AtLeastOnce(m, d);
    } else if d < 0 {
      assert m * -d == -(m * d);
      AtLeastOnce(m, -d);
    }
  }

  // ---------- packing ----------

  function Unsigned(x: int): nat {
    x % TWO_64
  }

  function Signed(x: nat): int {
    if x < TWO_63 then x else x - TWO_64
  }

  /**
   * The 64-bit expression the generator evaluates: time, machine and sequence shifted and joined.
   * Machine and sequence stay within their bits; only the time can leave the 64.
   */
  function Pack(t: int, machine: nat, sequence: nat): int {
    Signed(Or(Or(Unsigned(t * 0x40_0000), machine * 0x1000), sequence))
  }

  lemma Powers()
    ensures Pow2(12) == 0x1000 && Pow2(22) == 0x40_0000
  {
    assert Pow2(5) == 32;
    Pow2Adds(5, 5);
    Pow2Adds(10, 2);
    Pow2Adds(12, 10);
    assert Pow2(2) == 4;
  }

  lemma SmallMod(x: int, m: int)
    requires 0 <= x < m
    ensures x % m == x
  {
    Remainder(x, m, 0, x);
  }

  lemma JoinFields(t: nat, machine: nat, sequence: nat)
    requires machine <= MAX_MACHINE && sequence <= MAX_SEQUENCE
    ensures Or(Or(t * 0x40_0000, machine * 0x1000), sequence) == t * 0x40_0000 + machine * 0x1000 + sequence
  {
    Powers();
    OrDisjoint(t, machine * 0x1000, 22);
    assert t * 0x40_0000 + machine * 0x1000 == (t * 0x400 + machine) * 0x1000;
    OrDisjoint(t * 0x400 + machine, sequence, 12);
  }

  lemma PackIsSum(t: int, machine: nat, sequence: nat)
    requires 0 <= t < TIME_LIMIT && machine <= MAX_MACHINE && sequence <= MAX_SEQUENCE
    ensures Pack(t, machine, sequence) == t * 0x40_0000 + machine * 0x1000 + sequence
  {
    SmallMod(t * 0x40_0000, TWO_64);
    JoinFields(t, machine, sequence);
  }

  function TimeOf(id: int): int { id / 0x40_0000 + EPOCH }
  function MachineOf(id: int): int { id / 0x1000 % 0x400 }
  function SequenceOf(id: int): int { id % 0x1000 }

  /** Everything that went into an ID can be read back from it. */
  lemma PackDecodes(t: int, machine: nat, sequence: nat)
    requires 0 <= t < TIME_LIMIT && machine <= MAX_MACHINE && sequence <= MAX_SEQUENCE
    ensures var id := Pack(t, machine, sequence);
      TimeOf(id) == t + EPOCH && MachineOf(id) == machine && SequenceOf(id) == sequence
  {
    PackIsSum(t, machine, sequence);
    SumDecodes(Pack(t, machine, sequence), t, machine, sequence);
  }

  lemma SumDecodes(id: int, t: int, machine: nat, sequence: nat)
    requires machine <= MAX_MACHINE && sequence <= MAX_SEQUENCE
    requires id == t * 0x40_0000 + machine * 0x1000 + sequence
    ensures TimeOf(id) == t + EPOCH && MachineOf(id) == machine && SequenceOf(id) == sequence
  {
    Remainder(id, 0x40_0000, t, machine * 0x1000 + sequence);
    Remainder(id, 0x1000, t * 0x400 + machine, sequence);
    Remainder(t * 0x400 + machine, 0x400, t, machine);
  }

  // ---------- the generator ----------

  /** The generator's fields that change. */
  datatype Gen = Gen(lastTime: int, sequence: nat)

  /**
   * The clock as one call sees it: the first reading, the readings taken while waiting for a clock
   * that runs behind, and those taken while waiting for the next millisecond, each list up to the
   * ten-millisecond deadline.
   */
  datatype Clock = Clock(first: int, behind: seq<int>, exhausted: seq<int>)

  /** Polls until the clock has reached `last`, or the deadline passes. */
  function CatchUp(now: int, last: int, polls: seq<int>): int
    decreases |polls|
  {
    if now >= last || polls == [] then now else CatchUp(polls[0], last, polls[1..])
  }

  /** Polls until the clock is past `last`; at the deadline the time is advanced by hand. */
  function NextMilli(now: int, last: int, polls: seq<int>): int
    decreases |polls|
  {
    if now > last then now else if polls == [] then last + 1 else NextMilli(polls[0], last, polls[1..])
  }

  function Settled(g: Gen, c: Clock): int {
    var now := CatchUp(c.first, g.lastTime, c.behind);
    if now < g.lastTime then g.lastTime else now
  }

  function Stepped(g: Gen, c: Clock): Gen {
    var now := Settled(g, c);
    if now == g.lastTime then
      var s := And(g.sequence + 1, MAX_SEQUENCE);
      if s == 0 then Gen(NextMilli(now, g.lastTime, c.exhausted), 0) else Gen(now, s)
    else Gen(now, 0)
  }

  predicate ValidGen(g: Gen) {
    g.sequence <= MAX_SEQUENCE
  }

  function IdOf(g: Gen, machine: nat): int {
    Pack(g.lastTime - EPOCH, machine, g.sequence)
  }

  lemma {:induction false} NextMilliIsLater(now: int, last: int, polls: seq<int>)
    ensures NextMilli(now, last, polls) > last
    decreases |polls|
  {
    if now <= last && polls != [] {
      NextMilliIsLater(polls[0], last, polls[1..]);
    }
  }

  lemma NextSequence(s: nat)
    requires s <= MAX_SEQUENCE
    ensures And(s + 1, MAX_SEQUENCE) == if s == MAX_SEQUENCE then 0 else s + 1
  {
    Powers();
    AndMask(s + 1, 12);
    if s == MAX_SEQUENCE {
      Remainder(0x1000, 0x1000, 1, 0);
    } else {
      SmallMod(s + 1, 0x1000);
    }
  }

  /** Whatever the clock does, a step moves time and sequence forward, compared in that order. */
  lemma StepMovesForward(g: Gen, c: Clock)
    requires ValidGen(g)
    ensures var g' := Stepped(g, c);
      && ValidGen(g') && (g'.lastTime > g.lastTime || (g'.lastTime == g.lastTime && g'.sequence > g.sequence))
  {
    NextSequence(g.sequence);
    NextMilliIsLater(Settled(g, c), g.lastTime, c.exhausted);
  }

  /** The first reading that satisfies x >= floor, or `otherwise` if there is none. */
  ghost predicate FirstFrom(readings: seq<int>, floor: int, otherwise: int, x: int) {
    || (exists i :: 0 <= i < |readings| && readings[i] == x >= floor && forall j :: 0 <= j < i ==> readings[j] < floor)
    || (x == otherwise && forall j :: 0 <= j < |readings| ==> readings[j] < floor)
  }

  lemma {:induction false} CatchUpMeaning(now: int, last: int, polls: seq<int>)
    ensures var x := CatchUp(now, last, polls);
      FirstFrom([now] + polls, last, last, if x < last then last else x)
    decreases |polls|
  {
    var all := [now] + polls;
    if now >= last {
      assert all[0] == now;
    } else if polls != [] {
      CatchUpMeaning(polls[0], last, polls[1..]);
      assert [polls[0]] + polls[1..] == polls;
      FirstCons(now, polls, last, last, if CatchUp(now, last, polls) < last then last else CatchUp(now, last, polls));
    }
  }

  lemma {:induction false} NextMilliMeaning(now: int, last: int, polls: seq<int>)
    ensures FirstFrom([now] + polls, last + 1, last + 1, NextMilli(now, last, polls))
    decreases |polls|
  {
    var all := [now] + polls;
    if now > last {
      assert all[0] == now;
    } else if polls != [] {
      NextMilliMeaning(polls[0], last, polls[1..]);
      assert [polls[0]] + polls[1..] == polls;
      FirstCons(now, polls, last + 1, last + 1, NextMilli(now, last, polls));
    }
  }

  lemma FirstCons(a: int, rest: seq<int>, floor: int, otherwise: int, x: int)
    requires a < floor && FirstFrom(rest, floor, otherwise, x)
    ensures FirstFrom([a] + rest, floor, otherwise, x)
  {
    var all := [a] + rest;
    if i :| 0 <= i < |rest| && rest[i] == x >= floor && forall j :: 0 <= j < i ==> rest[j] < floor {
      assert all[i + 1] == x;
    }
  }

  /**
   * What a call does, in terms of the clock alone. The time counted with is the first reading that has
   * caught up with the last one, or the last time again if none has by the deadline. A later time
   * restarts the sequence; the same time counts it up; when it is used up, the next millisecond is
   * the first later reading, or one past the last time if none comes by the deadline.
   */
  lemma StepOutcome(g: Gen, c: Clock) returns (now: int)
    requires ValidGen(g)
    ensures FirstFrom([c.first] + c.behind, g.lastTime, g.lastTime, now)
    ensures var g' := Stepped(g, c);
      if now > g.lastTime then g' == Gen(now, 0)
      else if g.sequence < 4095 then g' == Gen(g.lastTime, g.sequence + 1)
      else g'.sequence == 0 && FirstFrom([now] + c.exhausted, g.lastTime + 1, g.lastTime + 1, g'.lastTime)
  {
    now := Settled(g, c);
    CatchUpMeaning(c.first, g.lastTime, c.behind);
    NextMilliMeaning(now, g.lastTime, c.exhausted);
    NextSequence(g.sequence);
  }

  /** The generator after a number of calls. */
  function After(g: Gen, clocks: seq<Clock>): Gen {
    if clocks == [] then g else Stepped(After(g, clocks[..|clocks| - 1]), clocks[|clocks| - 1])
  }

  predicate InRange(g: Gen) {
    0 <= g.lastTime - EPOCH < TIME_LIMIT
  }

  lemma {:induction false} CallsMoveForward(g: Gen, clocks: seq<Clock>, n: nat)
    requires ValidGen(g) && n < |clocks|
    ensures var a, b := After(g, clocks[..n]), After(g, clocks);
      && ValidGen(a) && ValidGen(b) && (b.lastTime > a.lastTime || (b.lastTime == a.lastTime && b.sequence > a.sequence))
    decreases |clocks|
  {
    var pre := clocks[..|clocks| - 1];
    AfterValid(g, pre);
    AfterValid(g, clocks[..n]);
    StepMovesForward(After(g, pre), clocks[|clocks| - 1]);
    if n < |pre| {
      assert pre[..n] == clocks[..n];
      CallsMoveForward(g, pre, n);
    }
  }

  lemma {:induction false} AfterValid(g: Gen, clocks: seq<Clock>)
    requires ValidGen(g)
    ensures ValidGen(After(g, clocks))
  {
    if clocks != [] {
      AfterValid(g, clocks[..|clocks| - 1]);
      StepMovesForward(After(g, clocks[..|clocks| - 1]), clocks[|clocks| - 1]);
    }
  }

  /**
   * The IDs of one generator strictly increase from call to call, for every sequence of clock
   * readings, as long as the time stays within 41 bits of the epoch.
   */
  lemma IdsIncrease(machine: nat, g: Gen, clocks: seq<Clock>, i: nat, j: nat)
    requires machine <= MAX_MACHINE && ValidGen(g) && 0 < i < j <= |clocks|
    requires InRange(After(g, clocks[..i])) && InRange(After(g, clocks[..j]))
    ensures IdOf(After(g, clocks[..i]), machine) < IdOf(After(g, clocks[..j]), machine)
  {
    var a, b := After(g, clocks[..i]), After(g, clocks[..j]);
    assert clocks[..j][..i] == clocks[..i];
    CallsMoveForward(g, clocks[..j], i);
    LaterIsLarger(machine, a, b);
  }

  lemma LaterIsLarger(machine: nat, a: Gen, b: Gen)
    requires machine <= MAX_MACHINE && ValidGen(a) && ValidGen(b) && InRange(a) && InRange(b)
    requires b.lastTime > a.lastTime || (b.lastTime == a.lastTime && b.sequence > a.sequence)
    ensures IdOf(a, machine) < IdOf(b, machine)
  {
    PackIsSum(a.lastTime - EPOCH, machine, a.sequence);
    PackIsSum(b.lastTime - EPOCH, machine, b.sequence);
    SumsGrow(IdOf(a, machine), IdOf(b, machine), machine, a.lastTime - EPOCH, b.lastTime - EPOCH, a.sequence, b.sequence);
  }

  lemma SumsGrow(id: int, id': int, machine: nat, t: int, u: int, a: nat, b: nat)
    requires a <= MAX_SEQUENCE && b <= MAX_SEQUENCE && (u > t || (u == t && b > a))
    requires id == t * 0x40_0000 + machine * 0x1000 + a && id' == u * 0x40_0000 + machine * 0x1000 + b
    ensures id < id'
  {
  }

  /** Generators with different machine numbers never make the same ID. */
  lemma MachinesNeverCollide(m: nat, n: nat, g: Gen, h: Gen)
    requires m <= MAX_MACHINE && n <= MAX_MACHINE && m != n
    requires ValidGen(g) && ValidGen(h) && InRange(g) && InRange(h)
    ensures IdOf(g, m) != IdOf(h, n)
  {
    PackIsSum(g.lastTime - EPOCH, m, g.sequence);
    PackIsSum(h.lastTime - EPOCH, n, h.sequence);
    SumsDiffer(IdOf(g, m), IdOf(h, n), m, n, g.lastTime - EPOCH, h.lastTime - EPOCH, g.sequence, h.sequence);
  }

  lemma SumsDiffer(id: int, id': int, m: nat, n: nat, t: int, u: int, a: nat, b: nat)
    requires m <= MAX_MACHINE && n <= MAX_MACHINE && m != n && a <= MAX_SEQUENCE && b <= MAX_SEQUENCE
    requires id == t * 0x40_0000 + m * 0x1000 + a && id' == u * 0x40_0000 + n * 0x1000 + b
    ensures id != id'
  {
    SumDecodes(id, t, m, a);
    SumDecodes(id', u, n, b);
  }

  lemma StepStays(g: Gen, c: Clock)
    requires ValidGen(g)
    ensures var g' := Stepped(g, c);
      && (c.first > g.lastTime ==> g' == Gen(c.first, 0))
      && (c.first == g.lastTime && g.sequence < 4095 ==> g' == Gen(g.lastTime, g.sequence + 1))
      && (g'.lastTime in [c.first] + c.behind + c.exhausted || g'.lastTime == g.lastTime || g'.lastTime == g.lastTime + 1)
  {
    var now := StepOutcome(g, c);
    var all := [c.first] + c.behind;
    assert now == g.lastTime || now in all;
    assert all[0] == c.first;
    if now == g.lastTime && g.sequence == 4095 {
      var x := Stepped(g, c).lastTime;
      assert x == g.lastTime + 1 || x in [now] + c.exhausted;
    }
  }

  lemma DecodesInRange(g: Gen, machine: nat)
    requires machine <= MAX_MACHINE && ValidGen(g)
    ensures var id := IdOf(g, machine);
      InRange(g) ==> TimeOf(id) == g.lastTime && MachineOf(id) == machine && SequenceOf(id) == g.sequence
  {
    if InRange(g) {
      PackDecodes(g.lastTime - EPOCH, machine, g.sequence);
    }
  }

  class SnowflakeGenerator {
    const machineID: nat
    var sequence: nat
    var lastTime: int

    ghost predicate Valid()
      reads this
    {
      machineID <= MAX_MACHINE && ValidGen(Gen(lastTime, sequence))
    }

    constructor (machineID: nat)
      requires machineID <= MAX_MACHINE
      ensures Valid() && this.machineID == machineID && lastTime == 0 && sequence == 0
    {
      this.machineID, sequence, lastTime := machineID, 0, 0;
    }

    method Generate(clock: Clock) returns (id: int)
      requires Valid()
      modifies this
      ensures Valid() && Gen(lastTime, sequence) == Stepped(old(Gen(lastTime, sequence)), clock)
      ensures id == IdOf(Gen(lastTime, sequence), machineID)
      ensures clock.first > old(lastTime) ==> lastTime == clock.first && sequence == 0
      ensures clock.first == old(lastTime) && old(sequence) < 4095 ==>
        lastTime == old(lastTime) && sequence == old(sequence) + 1
      ensures lastTime in [clock.first] + clock.behind + clock.exhausted || lastTime == old(lastTime) || lastTime == old(lastTime) + 1
      ensures InRange(Gen(lastTime, sequence)) ==>
        TimeOf(id) == lastTime && MachineOf(id) == machineID && SequenceOf(id) == sequence
    {
      StepMovesForward(Gen(lastTime, sequence), clock);
      StepStays(Gen(lastTime, sequence), clock);
      DecodesInRange(Stepped(Gen(lastTime, sequence), clock), machineID);
      var now := clock.first;
      if now < lastTime {
        var i := 0;
        while now < lastTime && i < |clock.behind|
          invariant 0 <= i <= |clock.behind|
          invariant CatchUp(now, lastTime, clock.behind[i..]) == CatchUp(clock.first, lastTime, clock.behind)
          decreases |clock.behind| - i
        {
          assert clock.behind[i..][0] == clock.behind[i] && clock.behind[i..][1..] == clock.behind[i + 1..];
          now := clock.behind[i];
          i := i + 1;
        }
        if now < lastTime {
          now := lastTime;
        }
      }
      if now == lastTime {
        sequence := And(sequence + 1, MAX_SEQUENCE);
        if sequence == 0 {
          ghost var start := now;
          var i := 0;
          while now <= lastTime
            invariant 0 <= i <= |clock.exhausted|
            invariant NextMilli(now, lastTime, clock.exhausted[i..]) == NextMilli(start, lastTime, clock.exhausted)
            decreases |clock.exhausted| - i, if now <= lastTime then 1 else 0
          {
            if i == |clock.exhausted| {
              now := lastTime + 1;
            } else {
              assert clock.exhausted[i..][0] == clock.exhausted[i];
              assert clock.exhausted[i..][1..] == clock.exhausted[i + 1..];
              now := clock.exhausted[i];
              i := i + 1;
            }
          }
          sequence := 0;
        }
      } else {
        sequence := 0;
      }
      lastTime := now;
      id := Pack(now - EPOCH, machineID, sequence);
    }
  }

  /** NewSnowflakeGenerator refuses machine numbers outside ten bits. */
  method NewSnowflakeGenerator(machineID: int) returns (g: SnowflakeGenerator?)
    ensures g != null <==> 0 <= machineID <= MAX_MACHINE
    ensures g != null ==> fresh(g) && g.Valid() && g.machineID == machineID
  {
    if machineID < 0 || machineID > MAX_MACHINE {
      return null;
    }
    g := new SnowflakeGenerator(machineID);
  }
}
