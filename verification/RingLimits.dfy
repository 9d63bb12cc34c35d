/**
 Where the limits of the queue as written lie: runs of the code that end in a wrong dequeue or in a producer left
 asleep, and a queue too large for the 32-bit sum of the wrap test.
 */
module RingLimits {
  import opened ByteStore
  import opened RingModel
  import opened RingProtocol
  import opened RingRuns
  import opened Options

  /** Some run of the code as written, from a fresh queue, ends in `s`. */
  ghost predicate Reachable(mem: seq<byte>, s: State)
    requires |mem| <= MAX_CAPACITY
  {
    exists steps: seq<Step> {:trigger CanRun(Fresh(mem), steps, false)} ::
      CanRun(Fresh(mem), steps, false) && Run(Fresh(mem), steps, false) == s
  }

  /** The run of `steps` from `s` is possible and ends in `t`. */
  ghost predicate Leads(s: State, steps: seq<Step>, t: State) {
    Good(s) && CanRun(s, steps, false) && Run(s, steps, false) == t
  }

  /** Thread steps one at a time. */
  ghost predicate Takes(s: State, step: Step, t: State) {
    Good(s) && Enabled(s, step, false) && Next(s, step, false) == t
  }

  lemma LeadsMore(s: State, step: Step, u: State, steps: seq<Step>, t: State)
    requires Takes(s, step, u) && Leads(u, steps, t)
    ensures Leads(s, [step] + steps, t)
  {
    assert ([step] + steps)[1..] == steps;
  }

  lemma LeadsLess(s: State, steps: seq<Step>, t: State) returns (u: State)
    requires Leads(s, steps, t) && steps != []
    ensures Takes(s, steps[0], u) && Leads(u, steps[1..], t)
  {
    NextKeeps(s, steps[0], false);
    u := Next(s, steps[0], false);
  }

  lemma LeadsOne(s: State, step: Step, t: State)
    requires Takes(s, step, t)
    ensures Leads(s, [step], t)
  {
    NextKeeps(s, step, false);
    LeadsMore(s, step, t, [], t);
    assert [step] + [] == [step];
  }

  lemma LeadsThrough(s: State, steps: seq<Step>, u: State, step: Step, v: State)
    requires steps != [] && Takes(s, steps[0], u) && Leads(u, steps[1..] + [step], v)
    ensures Leads(s, steps + [step], v)
  {
    LeadsMore(s, steps[0], u, steps[1..] + [step], v);
    assert steps + [step] == [steps[0]] + (steps[1..] + [step]);
  }

  lemma {:induction false} LeadsOn(s: State, steps: seq<Step>, t: State, step: Step, v: State)
    requires Leads(s, steps, t) && Takes(t, step, v)
    ensures Leads(s, steps + [step], v)
    decreases |steps|
  {
    if steps == [] {
      LeadsOne(s, step, v);
      assert steps + [step] == [step];
    } else {
      var u := LeadsLess(s, steps, t);
      LeadsOn(u, steps[1..], t, step, v);
      LeadsThrough(s, steps, u, step, v);
    }
  }

  lemma Goes(mem: seq<byte>, s: State, step: Step, t: State)
    requires |mem| <= MAX_CAPACITY && Reachable(mem, s) && Good(s) && Enabled(s, step, false) &&
      Next(s, step, false) == t
    ensures Good(t) && Reachable(mem, t)
  {
    var steps: seq<Step> :| CanRun(Fresh(mem), steps, false) && Run(Fresh(mem), steps, false) == s;
    LeadsOn(Fresh(mem), steps, s, step, t);
    NextKeeps(s, step, false);
    assert CanRun(Fresh(mem), steps + [step], false);
  }

  // ---------- a queue of 27 bytes whose second entry wraps around ----------

  function Blank(): seq<byte> {
    seq(27, _ => 0)
  }

  /** An entry of two zeros at 0. */
  function First(): seq<byte> {
    seq(27, k => if k == 0 then 2 else 0)
  }

  lemma FirstBytes()
    ensures PutHeader(Blank(), 0, 2) == First() && Splice(First(), 8, [0, 0]) == First() && SizeAt(First(), 0) == 2 &&
      First()[8..10] == [0, 0]
  {
  }

  lemma FirstMoves()
    ensures Remove(Ring(0, 10, 10, 10, 0, First()), 0, 0) == Ring(10, 10, 10, 10, 0, First())
    ensures Dequeue(Ring(0, 10, 0, 10, 0, First()), 0) == (0, 10) && DataAt(First(), 0) == Some([0, 0])
    ensures !MustWait(Ring(0, 10, 10, 10, 0, First()), 0, 0)
  {
    FirstBytes();
  }

  lemma FirstReserved() returns (s: State)
    ensures Good(s) && Reachable(Blank(), s)
    ensures s == State(Ring(0, 10, 0, 0, 0, First()), Log([Entry(0, 0, [0, 0], 0, false)], 0, 0, 1), [[0, 0]], 0, [])
  {
    FirstBytes();
    var s0 := Fresh(Blank());
    assert CanRun(s0, [], false) && Run(s0, [], false) == s0;
    s := State(Ring(0, 10, 0, 0, 0, First()), Log([Entry(0, 0, [0, 0], 0, false)], 0, 0, 1), [[0, 0]], 0, []);
    Goes(Blank(), s0, ReserveStep([0, 0]), s);
  }

  lemma FirstPublished() returns (s: State)
    ensures Good(s) && Reachable(Blank(), s)
    ensures s == State(Ring(0, 10, 0, 10, 0, First()), Log([Entry(0, 0, [0, 0], 2, false)], 0, 1, 1), [[0, 0]], 0, [])
  {
    FirstBytes();
    var s1 := FirstReserved();
    var s2 := s1.(log := Log([Entry(0, 0, [0, 0], 2, false)], 0, 0, 1));
    Goes(Blank(), s1, CopyStep(0, 2), s2);
    s := s2.(r := Ring(0, 10, 0, 10, 0, First()), log := Log([Entry(0, 0, [0, 0], 2, false)], 0, 1, 1));
    Goes(Blank(), s2, PublishStep(0), s);
  }

  lemma FirstTaken() returns (s: State)
    ensures Good(s) && Reachable(Blank(), s)
    ensures s == State(Ring(0, 10, 10, 10, 0, First()), Log([Entry(0, 0, [0, 0], 2, false)], 1, 1, 1), [[0, 0]], 0,
      [[0, 0]])
  {
    FirstMoves();
    var s2 := FirstPublished();
    s := State(Ring(0, 10, 10, 10, 0, First()), Log([Entry(0, 0, [0, 0], 2, false)], 1, 1, 1), [[0, 0]], 0, [[0, 0]]);
    Goes(Blank(), s2, DequeueStep(0), s);
  }

  lemma FirstGone() returns (s: State)
    ensures Good(s) && Reachable(Blank(), s)
    ensures s == State(Ring(10, 10, 10, 10, 0, First()), Log([], 0, 0, 0), [[0, 0]], 1, [[0, 0]])
  {
    FirstMoves();
    var s3 := FirstTaken();
    s := State(Ring(10, 10, 10, 10, 0, First()), Log([], 0, 0, 0), [[0, 0]], 1, [[0, 0]]);
    Goes(Blank(), s3, RemoveStep(0, 0), s);
  }

  /** Headers of an entry at 10, of a wrapped one at 0, and the extra one of the latter at 19. */
  function Headers(): seq<byte> {
    seq(27, k => if k == 0 || k == 10 || k == 19 then 1 else 0)
  }

  /** The same with the byte 5 in the entry at 10 and the byte 7 in the entry at 0. */
  function Two(): seq<byte> {
    seq(27, k => if k == 0 || k == 10 || k == 19 then 1 else if k == 8 then 7 else if k == 18 then 5 else 0)
  }

  function AtTen(copied: nat): Entry {
    Entry(10, 10, [5], copied, false)
  }

  function AtZero(copied: nat, waiting: bool): Entry {
    Entry(19, 0, [7], copied, waiting)
  }

  lemma HeaderWrites()
    ensures PutHeader(PutHeader(PutHeader(First(), 10, 1), 19, 1), 0, 1) == Headers()
  {
    var m := PutHeader(First(), 10, 1);
    assert m == seq(27, k => if k == 0 then 2 else if k == 10 then 1 else 0);
    assert PutHeader(m, 19, 1) == seq(27, k => if k == 0 then 2 else if k == 10 || k == 19 then 1 else 0);
  }

  lemma DataWrites()
    ensures Splice(Splice(Headers(), 18, [5]), 8, [7]) == Two()
    ensures SizeAt(Two(), 0) == 1 && SizeAt(Two(), 10) == 1 && SizeAt(Two(), 19) == 1 && Two()[18..19] == [5] &&
      Two()[8..9] == [7]
  {
  }

  /** Two entries are reserved, the second of them wrapped around. */
  lemma TwoReserved() returns (s: State)
    ensures Good(s) && Reachable(Blank(), s)
    ensures s == State(Ring(10, 9, 10, 10, 0, Headers()), Log([AtTen(0), AtZero(0, false)], 0, 0, 1),
      [[0, 0], [5], [7]], 1, [[0, 0]])
  {
    HeaderWrites();
    var s1 := FirstGone();
    var s2 := State(Ring(10, 19, 10, 10, 0, PutHeader(First(), 10, 1)), Log([AtTen(0)], 0, 0, 1), [[0, 0], [5]], 1,
      [[0, 0]]);
    Goes(Blank(), s1, ReserveStep([5]), s2);
    s := TwoReservedEnd(s2);
  }

  lemma TwoReservedEnd(s2: State) returns (s: State)
    requires s2 == State(Ring(10, 19, 10, 10, 0, PutHeader(First(), 10, 1)), Log([AtTen(0)], 0, 0, 1), [[0, 0], [5]], 1,
      [[0, 0]])
    requires Good(s2) && Reachable(Blank(), s2)
    ensures Good(s) && Reachable(Blank(), s)
    ensures s == State(Ring(10, 9, 10, 10, 0, Headers()), Log([AtTen(0), AtZero(0, false)], 0, 0, 1),
      [[0, 0], [5], [7]], 1, [[0, 0]])
  {
    HeaderWrites();
    s := State(Ring(10, 9, 10, 10, 0, Headers()), Log([AtTen(0), AtZero(0, false)], 0, 0, 1), [[0, 0], [5], [7]], 1,
      [[0, 0]]);
    Goes(Blank(), s2, ReserveStep([7]), s);
  }

  lemma TwoCopied() returns (s: State)
    ensures Good(s) && Reachable(Blank(), s)
    ensures s == State(Ring(10, 9, 10, 10, 0, Two()), Log([AtTen(1), AtZero(1, false)], 0, 0, 1), [[0, 0], [5], [7]], 1,
      [[0, 0]])
  {
    DataWrites();
    var s1 := TwoReserved();
    var s2 := s1.(r := s1.r.(mem := Splice(Headers(), 18, [5])), log := s1.log.(live := [AtTen(1), AtZero(0, false)]));
    Goes(Blank(), s1, CopyStep(0, 1), s2);
    s := s2.(r := s1.r.(mem := Two()), log := s1.log.(live := [AtTen(1), AtZero(1, false)]));
    Goes(Blank(), s2, CopyStep(1, 1), s);
  }

  // ---------- a second consumer ----------

  lemma TwoPublished() returns (s: State)
    ensures Good(s) && Reachable(Blank(), s)
    ensures s == State(Ring(10, 9, 10, 9, 0, Two()), Log([AtTen(1), AtZero(1, false)], 0, 2, 1), [[0, 0], [5], [7]], 1,
      [[0, 0]])
  {
    var s1 := TwoCopied();
    var s2 := s1.(r := s1.r.(validTail := 19), log := s1.log.(published := 1));
    Goes(Blank(), s1, PublishStep(0), s2);
    s := s2.(r := s2.r.(validTail := 9), log := s2.log.(published := 2));
    Goes(Blank(), s2, PublishStep(1), s);
  }

  /** One entry is out, the next has wrapped around. */
  function TwoConsumers(): State {
    State(Ring(10, 9, 19, 9, 0, Two()), Log([AtTen(1), AtZero(1, false)], 1, 2, 1), [[0, 0], [5], [7]], 1,
      [[0, 0], [5]])
  }

  /** A run of the code with one consumer leads to a state in which a second consumer is handed something that is not an
      entry. */
  lemma SecondConsumerGoesWrong(stray: nat)
    ensures var s := TwoConsumers();
      && Good(s) && Reachable(Blank(), s) && DequeueFinds(s)
      && Dequeue(s.r, stray) == (19, 28) && !GivesOldest(s.r, s.log, Dequeue(s.r, stray))
  {
    DataWrites();
    var s1 := TwoPublished();
    Goes(Blank(), s1, DequeueStep(0), TwoConsumers());
  }

  // ---------- a sleeper that wrapped around ----------

  /** The flag of the entry at 0 is set. */
  function TwoAsleep(): seq<byte> {
    seq(27, k requires 0 <= k < 27 => if k == 5 then 1 else Two()[k])
  }

  lemma Asleep() returns (s: State)
    ensures Good(s) && Reachable(Blank(), s)
    ensures s == State(Ring(10, 9, 10, 10, 1, TwoAsleep()), Log([AtTen(1), AtZero(1, true)], 0, 0, 1),
      [[0, 0], [5], [7]], 1, [[0, 0]])
  {
    var s1 := TwoCopied();
    s := s1.(r := s1.r.(waiters := 1, mem := TwoAsleep()), log := s1.log.(live := [AtTen(1), AtZero(1, true)]));
    assert Splice(Two(), 5, [1]) == TwoAsleep();
    Goes(Blank(), s1, BackOffStep(1), s);
  }

  /** A run in which the publisher of one entry leaves the producer of the next one asleep: it is that producer's
      turn, its entry is next, and the flag that is read belongs to the extra header. */
  lemma WrappedSleeperNotWoken(stray: byte)
    ensures exists s: State {:trigger Reachable(Blank(), s)} ::
      Good(s) && Reachable(Blank(), s) && s.log.published < |s.log.live|
      && s.log.live[s.log.published].waiting && s.log.live[s.log.published].from == s.r.validTail && !Wakes(s.r, stray)
  {
    var s1 := Asleep();
    var s := s1.(r := s1.r.(validTail := 19), log := s1.log.(published := 1));
    Goes(Blank(), s1, PublishStep(0), s);
    WakeExact(s.r, s.log, stray);
  }

  // ---------- a queue beyond 2 GiB ----------

  /** One producer alone: reserves, copies everything, publishes. */
  function Produce(r: Ring, payload: seq<byte>): (q: Ring)
    requires r.head <= |r.mem| < U32 && r.tail <= |r.mem| && !Place(r, |payload|).Full?
  {
    var at := if Place(r, |payload|).At? then r.tail else 0;
    Publish(Copy(Reserve(r, |payload|), at, 0, payload), at + HEADER + |payload|, false)
  }

  lemma Produced(r: Ring, log: Log, payload: seq<byte>) returns (log': Log)
    requires Inv(r, log) && log.live == [] && r.head <= |r.mem| && r.tail <= |r.mem| && !Place(r, |payload|).Full?
    ensures Inv(Produce(r, payload), log')
    ensures var at := if Place(r, |payload|).At? then r.tail else 0;
      log' == Log([Entry(r.tail, at, payload, |payload|, false)], 0, 1, if Place(r, |payload|).At? then 1 else 0)
  {
    ReserveKeeps(r, log, payload);
    var q, m := Reserve(r, |payload|), ReserveLog(r, log, payload);
    CopyKeeps(q, m, 0, |payload|);
    assert payload[0..|payload|] == payload;
    var q', m' := Copy(q, m.live[0].at, 0, payload), CopyLog(m, 0, |payload|);
    PublishKeeps(q', m', 0);
    log' := m'.(published := 1);
  }

  /** The queue after one entry has come and gone, and a second one has been enqueued that wraps around. */
  function Huge(mem: seq<byte>, a: seq<byte>, b: seq<byte>, stray: nat): Ring
    requires |mem| == 0xF000_0000 && |a| == 0xE800_0000 - HEADER && |b| == 0x2000_0000
  {
    var r1 := Produce(Ring(0, 0, 0, 0, 0, mem), a);
    var got := Dequeue(r1, stray);
    if got.0 + HEADER > |mem| then r1 else
    var r2 := Remove(r1.(validHead := got.1), got.0, stray);
    if r2.head > |mem| || r2.tail > |mem| || Place(r2, |b|).Full? then r2 else Produce(r2, b)
  }

  /**
   In a queue of 0xF0000000 bytes the code goes wrong with one producer and one consumer: the entry lies at offset 0,
   the sum overflows, and the dequeue gives out the extra header in front of the queue's end.
   */
  lemma HugeQueueGoesWrong(mem: seq<byte>, a: seq<byte>, b: seq<byte>, stray: nat)
    requires |mem| == 0xF000_0000 && |a| == 0xE800_0000 - HEADER && |b| == 0x2000_0000
    ensures var r := Huge(mem, a, b, stray);
      && r.validHead == r.head != r.validTail && |r.mem| == |mem| && DataAt(r.mem, 0) == Some(b)
      && Dequeue(r, stray).0 == 0xE800_0000
  {
    var r0, log0 := Ring(0, 0, 0, 0, 0, mem), Log([], 0, 0, 0);
    var log1 := Produced(r0, log0, a);
    var r1 := Produce(r0, a);
    HugeFirst(r1, log1, a, stray);
    var r2 := Remove(r1.(validHead := Dequeue(r1, stray).1), 0, stray);
    var log3 := Produced(r2, Log([], 0, 0, 0), b);
    HugeSecond(Produce(r2, b), log3, b, stray);
  }

  lemma HugeFirst(r: Ring, log: Log, a: seq<byte>, stray: nat)
    requires |r.mem| == 0xF000_0000 && |a| == 0xE800_0000 - HEADER && Inv(r, log) && r.head == 0 && r.validHead == 0
    requires log == Log([Entry(0, 0, a, |a|, false)], 0, 1, 1)
    ensures Dequeue(r, stray) == (0, 0xE800_0000)
    ensures var q := Remove(r.(validHead := 0xE800_0000), 0, stray);
      Inv(q, Log([], 0, 0, 0)) && q.head == q.tail == q.validHead == q.validTail == 0xE800_0000 && |q.mem| == |r.mem| &&
        q.waiters == 0
  {
    WrapTestAtEntryIff(r, log, 0, stray);
    DequeueByTest(r, log, 0, stray);
    DequeueKeeps(r, log, (0, 0xE800_0000));
    RemoveKeeps(r.(validHead := 0xE800_0000), log.(taken := 1), stray);
  }

  lemma HugeSecond(r: Ring, log: Log, b: seq<byte>, stray: nat)
    requires |r.mem| == 0xF000_0000 && |b| == 0x2000_0000 && Inv(r, log) && r.head == 0xE800_0000 &&
      r.validHead == 0xE800_0000
    requires log == Log([Entry(0xE800_0000, 0, b, |b|, false)], 0, 1, 0)
    ensures r.validTail != r.head && DataAt(r.mem, 0) == Some(b) && Dequeue(r, stray).0 == 0xE800_0000
  {
    assert Stored(r.mem, log.live[0]);
    assert b[..|b|] == b;
    WrapTestAtEntryIff(r, log, 0, stray);
  }
}
