/**
 Whole runs of the data queue: the queue memory together with the history of everything ever reserved and
 everything ever handed to a consumer. The runs show that the queue is a FIFO of byte strings.
 */
module RingRuns {
  import opened ByteStore
  import opened RingModel
  import opened RingProtocol
  import opened Options

  /** `history` lists the data of all reservations that succeeded, `removed` counts the entries given back,
      `outputs` lists what consumers read from the memory at the moment they got an entry. */
  datatype State = State(r: Ring, log: Log, history: seq<seq<byte>>, removed: nat, outputs: seq<seq<byte>>)

  /** One critical section, or one stretch of lock-free copying, of one thread. A producer is named by the
      index of its entry, a consumer by the index of the entry it holds. */
  datatype Step =
    | ReserveStep(payload: seq<byte>)
    | CopyStep(i: nat, k: nat)
    | BackOffStep(i: nat)
    | PublishStep(i: nat)
    | DequeueStep(strayAtDequeue: nat)
    | RemoveStep(i: nat, stray: nat)

  /** The dequeue as written finds the right entry: the entry is at offset 0, or the wrap test at the head says what an
      unbounded sum at the valid head would say. */
  predicate TestRight(r: Ring, stray: nat) {
    var n := SizeRead(r, r.validHead, stray);
    r.validHead == 0 || (WrapTest(|r.mem|, r.head, n) <==> r.validHead + n + HEADER > |r.mem|)
  }

  /** When a thread can take the step. A producer copies before it publishes and publishes once. In the code as
      written (`repaired` is false) a consumer that finds an entry dequeues only while the wrap test goes right. */
  ghost predicate Enabled(s: State, step: Step, repaired: bool) {
    match step
    case ReserveStep(_) => true
    case CopyStep(i, k) => i < |s.log.live| && s.log.live[i].copied + k <= |s.log.live[i].payload|
    case BackOffStep(i) => s.log.published <= i < |s.log.live| && !s.log.live[i].waiting &&
      s.log.live[i].from != s.r.validTail
    case PublishStep(i) =>
      i < |s.log.live| && s.log.live[i].copied == |s.log.live[i].payload| && s.log.live[i].from == s.r.validTail
    case DequeueStep(stray) => repaired || !DequeueFinds(s) || TestRight(s.r, stray)
    case RemoveStep(i, stray) => i < s.log.taken && i < |s.log.live| && !MustWait(s.r, s.log.live[i].at, stray)
  }

  /** The entries are the part of the history not yet given back, the outputs the part already handed out. */
  ghost predicate Books(s: State) {
    && s.removed + |s.log.live| == |s.history|
    && (forall i: nat {:trigger s.log.live[i]} :: i < |s.log.live| ==>
      s.log.live[i].payload == s.history[s.removed + i])
    && s.log.taken <= |s.log.live|
    && s.outputs == s.history[..s.removed + s.log.taken]
  }

  ghost predicate Good(s: State) {
    Inv(s.r, s.log) && Books(s) && |s.r.mem| <= MAX_CAPACITY
  }

  ghost predicate DequeueFinds(s: State) {
    s.r.validHead != s.r.validTail
  }

  function Got(s: State, stray: nat, repaired: bool): (nat, nat)
    requires HEADER <= |s.r.mem|
  {
    if repaired then DequeueFrom(s.r, s.r.validHead, stray) else Dequeue(s.r, stray)
  }

  ghost function Next(s: State, step: Step, repaired: bool): State
    requires Good(s) && Enabled(s, step, repaired)
  {
    match step
    case ReserveStep(payload) =>
      if Place(s.r, |payload|).Full? then s
      else
        TailBounded(s.r, s.log);
        s.(r := Reserve(s.r, |payload|), log := ReserveLog(s.r, s.log, payload), history := s.history + [payload])
    case CopyStep(i, k) =>
      var e := s.log.live[i];
      CopyKeeps(s.r, s.log, i, k);
      s.(r := Copy(s.r, e.at, e.copied, e.payload[e.copied..e.copied + k]), log := CopyLog(s.log, i, k))
    case BackOffStep(i) =>
      BackOffKeeps(s.r, s.log, i);
      s.(r := BackOff(s.r, s.log.live[i].at), log := BackOffLog(s.log, i))
    case PublishStep(i) =>
      PublishKeeps(s.r, s.log, i);
      s.(r := Publish(s.r, End(s.log.live[i]), s.log.live[i].waiting), log := s.log.(published := i + 1))
    case DequeueStep(stray) =>
      if !DequeueFinds(s) then s
      else
        GotOldest(s, stray, repaired);
        var got := Got(s, stray, repaired);
        s.(r := s.r.(validHead := got.1), log := s.log.(taken := s.log.taken + 1),
           outputs := s.outputs + [DataAt(s.r.mem, got.0).value])
    case RemoveStep(i, stray) =>
      MustWaitExact(s.r, s.log, i, stray);
      RemoveKeeps(s.r, s.log, stray);
      s.(r := Remove(s.r, s.log.live[i].at, stray), log := RemoveLog(s.log), removed := s.removed + 1)
  }

  lemma GotOldest(s: State, stray: nat, repaired: bool)
    requires Good(s) && DequeueFinds(s) && (repaired || TestRight(s.r, stray))
    ensures HEADER <= |s.r.mem| && GivesOldest(s.r, s.log, Got(s, stray, repaired))
  {
    if repaired {
      RepairedDequeueRight(s.r, s.log, stray);
    } else {
      DequeueRightIff(s.r, s.log, stray);
    }
  }

  /** A consumer that finds every dequeued entry given back can always dequeue. */
  lemma OneAtATimeEnabled(s: State, stray: nat)
    requires Good(s) && s.r.validHead == s.r.head
    ensures Enabled(s, DequeueStep(stray), false)
  {
    if DequeueFinds(s) {
      DequeueOneAtATime(s.r, s.log, stray);
      DequeueRightIff(s.r, s.log, stray);
    }
  }

  lemma SamePayloads(s: State, t: State)
    requires Books(s) && t.history == s.history && t.removed == s.removed && t.outputs == s.outputs
    requires |t.log.live| == |s.log.live| && t.log.taken == s.log.taken
    requires forall i: nat {:trigger t.log.live[i]} :: i < |s.log.live| ==>
      t.log.live[i].payload == s.log.live[i].payload
    ensures Books(t)
  {
  }

  lemma ReserveBooks(s: State, payload: seq<byte>, t: State)
    requires Books(s) && t.history == s.history + [payload] && t.removed == s.removed && t.outputs == s.outputs
    requires t.log == ReserveLog(s.r, s.log, payload)
    ensures Books(t)
  {
  }

  lemma DequeueBooks(s: State, t: State)
    requires Books(s) && s.log.taken < |s.log.live| && t.history == s.history && t.removed == s.removed
    requires t.log == s.log.(taken := s.log.taken + 1) && t.outputs == s.outputs + [s.log.live[s.log.taken].payload]
    ensures Books(t)
  {
    var k := s.removed + s.log.taken;
    assert s.history[..k + 1] == s.history[..k] + [s.history[k]];
  }

  lemma RemoveBooks(s: State, t: State)
    requires Books(s) && s.log.taken > 0 && s.log.published > 0 && t.history == s.history && t.outputs == s.outputs
    requires t.log == RemoveLog(s.log) && t.removed == s.removed + 1
    ensures Books(t)
  {
    forall i: nat {:trigger t.log.live[i]} | i < |t.log.live|
      ensures t.log.live[i].payload == t.history[t.removed + i]
    {
      assert t.log.live[i] == s.log.live[i + 1];
    }
  }

  lemma ReserverKeeps(s: State, payload: seq<byte>, repaired: bool, t: State)
    requires Good(s) && t == Next(s, ReserveStep(payload), repaired)
    ensures Good(t)
  {
    if !Place(s.r, |payload|).Full? {
      ReserveKeeps(s.r, s.log, payload);
      ReserveBooks(s, payload, t);
    }
  }

  lemma PublisherKeeps(s: State, i: nat, repaired: bool, t: State)
    requires Good(s) && Enabled(s, PublishStep(i), repaired) && t == Next(s, PublishStep(i), repaired)
    ensures Good(t)
  {
    PublishKeeps(s.r, s.log, i);
    SamePayloads(s, t);
  }

  lemma CopierKeeps(s: State, step: Step, repaired: bool, t: State)
    requires Good(s) && Enabled(s, step, repaired) && t == Next(s, step, repaired)
    requires step.CopyStep? || step.BackOffStep?
    ensures Good(t)
  {
    if step.CopyStep? {
      CopyKeeps(s.r, s.log, step.i, step.k);
    } else {
      BackOffKeeps(s.r, s.log, step.i);
    }
    SamePayloads(s, t);
  }

  lemma ConsumerKeeps(s: State, step: Step, repaired: bool, t: State)
    requires Good(s) && Enabled(s, step, repaired) && t == Next(s, step, repaired)
    requires step.DequeueStep? || step.RemoveStep?
    ensures Good(t)
  {
    if step.RemoveStep? {
      MustWaitExact(s.r, s.log, step.i, step.stray);
      RemoveKeeps(s.r, s.log, step.stray);
      RemoveBooks(s, t);
    } else if DequeueFinds(s) {
      GotOldest(s, step.strayAtDequeue, repaired);
      DequeueKeeps(s.r, s.log, Got(s, step.strayAtDequeue, repaired));
      DequeueBooks(s, t);
    }
  }

  /** Every step of every thread keeps the queue consistent and the outputs a prefix of the history. */
  lemma NextKeeps(s: State, step: Step, repaired: bool)
    requires Good(s) && Enabled(s, step, repaired)
    ensures Good(Next(s, step, repaired))
  {
    var t := Next(s, step, repaired);
    if step.ReserveStep? {
      ReserverKeeps(s, step.payload, repaired, t);
    } else if step.PublishStep? {
      PublisherKeeps(s, step.i, repaired, t);
    } else if step.CopyStep? || step.BackOffStep? {
      CopierKeeps(s, step, repaired, t);
    } else {
      ConsumerKeeps(s, step, repaired, t);
    }
  }

  ghost predicate CanRun(s: State, steps: seq<Step>, repaired: bool)
    requires Good(s)
    decreases |steps|
  {
    steps == [] ||
    (&& Enabled(s, steps[0], repaired)
     && (NextKeeps(s, steps[0], repaired); CanRun(Next(s, steps[0], repaired), steps[1..], repaired)))
  }

  ghost function Run(s: State, steps: seq<Step>, repaired: bool): (t: State)
    requires Good(s) && CanRun(s, steps, repaired)
    ensures Good(t) && s.history <= t.history && s.outputs <= t.outputs
    decreases |steps|
  {
    if steps == [] then s
    else
      NextKeeps(s, steps[0], repaired);
      HistoryGrows(s, steps[0], repaired);
      Run(Next(s, steps[0], repaired), steps[1..], repaired)
  }

  lemma HistoryGrows(s: State, step: Step, repaired: bool)
    requires Good(s) && Enabled(s, step, repaired)
    ensures s.history <= Next(s, step, repaired).history && s.outputs <= Next(s, step, repaired).outputs
  {
  }

  /** A fresh queue: the offsets are zero, the bytes are whatever the allocation held. */
  function Fresh(mem: seq<byte>): (s: State)
    requires |mem| <= MAX_CAPACITY
    ensures Good(s)
  {
    State(Ring(0, 0, 0, 0, 0, mem), Log([], 0, 0, 0), [], 0, [])
  }

  /** In every run from a fresh queue, the consumers have read the reserved byte strings in reservation order:
      none lost, none twice, none torn. Entries still out still read as they were given out. */
  lemma RunsAreFifo(mem: seq<byte>, steps: seq<Step>, repaired: bool)
    requires |mem| <= MAX_CAPACITY
    requires CanRun(Fresh(mem), steps, repaired)
    ensures var t := Run(Fresh(mem), steps, repaired);
      && t.outputs <= t.history && |t.outputs| == t.removed + t.log.taken
      && forall i: nat {:trigger t.log.live[i]} :: i < t.log.taken ==>
        DataAt(t.r.mem, t.log.live[i].at) == Some(t.outputs[t.removed + i])
  {
    EntriesOutRead(Run(Fresh(mem), steps, repaired));
  }

  lemma EntriesOutRead(t: State)
    requires Good(t)
    ensures forall i: nat {:trigger t.log.live[i]} :: i < t.log.taken ==>
      DataAt(t.r.mem, t.log.live[i].at) == Some(t.outputs[t.removed + i])
  {
    forall i: nat {:trigger t.log.live[i]} | i < t.log.taken
      ensures DataAt(t.r.mem, t.log.live[i].at) == Some(t.outputs[t.removed + i])
    {
      var e := t.log.live[i];
      assert Stored(t.r.mem, e);
      assert e.payload[..e.copied] == e.payload;
    }
  }

  // ---------- refinement of an abstract queue ----------

  /** The abstract queue: the byte strings not yet handed out, and how many of them may be handed out. */
  datatype Fifo = Fifo(pending: seq<seq<byte>>, ready: nat)

  ghost function Abstract(s: State): Fifo
    requires Books(s) && s.log.taken <= s.log.published
  {
    Fifo(s.history[s.removed + s.log.taken..], s.log.published - s.log.taken)
  }

  /** The ring has room for the entry a producer asks for, at the tail or at the beginning. */
  ghost predicate Room(s: State, step: Step) {
    step.ReserveStep? && HasRoom(s.r, s.log, |step.payload|)
  }

  /** What each step means on the abstract queue; copying, waiting and giving back are invisible. */
  ghost predicate AbstractStep(a: Fifo, b: Fifo, step: Step, room: bool, output: seq<seq<byte>>) {
    match step
    case ReserveStep(payload) => output == [] && b == if room then a.(pending := a.pending + [payload]) else a
    case PublishStep(_) => output == [] && a.ready < |a.pending| && b == a.(ready := a.ready + 1)
    case DequeueStep(_) =>
      if a.ready == 0 then output == [] && b == a
      else a.pending != [] && output == [a.pending[0]] && b == Fifo(a.pending[1..], a.ready - 1)
    case _ => output == [] && b == a
  }

  /** Every concrete step is a step of the abstract queue with the same output. */
  lemma StepRefinesFifo(s: State, step: Step, repaired: bool)
    requires Good(s) && Enabled(s, step, repaired)
    ensures Good(Next(s, step, repaired)) && s.outputs <= Next(s, step, repaired).outputs
    ensures AbstractStep(Abstract(s), Abstract(Next(s, step, repaired)), step, Room(s, step),
      Next(s, step, repaired).outputs[|s.outputs|..])
  {
    NextKeeps(s, step, repaired);
    HistoryGrows(s, step, repaired);
    var t := Next(s, step, repaired);
    if step.DequeueStep? {
      DequeueRefines(s, step.strayAtDequeue, repaired, t);
    } else if step.ReserveStep? {
      ReserveRefines(s, step.payload, repaired, t);
    } else if step.PublishStep? {
      PublishRefines(s, step.i, repaired, t);
    } else {
      QuietRefines(s, step, repaired, t);
    }
  }

  lemma HistoryAppend(s: State, payload: seq<byte>, t: State)
    requires Books(s) && s.log.taken <= s.log.published && t.history == s.history + [payload] && t.removed == s.removed
    requires t.log.taken == s.log.taken && t.log.published == s.log.published && Books(t)
    ensures Abstract(t) == Abstract(s).(pending := Abstract(s).pending + [payload])
  {
    var lo := s.removed + s.log.taken;
    assert t.history[lo..] == s.history[lo..] + [payload];
  }

  lemma HistoryTake(s: State, t: State)
    requires Books(s) && s.log.taken < s.log.published && s.log.taken < |s.log.live| && t.history == s.history
    requires t.removed == s.removed && t.log.taken == s.log.taken + 1 && t.log.published == s.log.published && Books(t)
    ensures Abstract(s).pending != [] && Abstract(s).pending[0] == s.log.live[s.log.taken].payload
    ensures Abstract(t) == Fifo(Abstract(s).pending[1..], Abstract(s).ready - 1)
  {
    var lo := s.removed + s.log.taken;
    assert t.history[lo + 1..] == s.history[lo..][1..];
  }

  lemma ReserveRefines(s: State, payload: seq<byte>, repaired: bool, t: State)
    requires Good(s) && t == Next(s, ReserveStep(payload), repaired) && Good(t)
    ensures AbstractStep(Abstract(s), Abstract(t), ReserveStep(payload), Room(s, ReserveStep(payload)),
      t.outputs[|s.outputs|..])
  {
    PlaceExact(s.r, s.log, |payload|);
    if !Place(s.r, |payload|).Full? {
      HistoryAppend(s, payload, t);
    }
  }

  lemma PublishRefines(s: State, i: nat, repaired: bool, t: State)
    requires Good(s) && Enabled(s, PublishStep(i), repaired) && t == Next(s, PublishStep(i), repaired) && Good(t)
    ensures AbstractStep(Abstract(s), Abstract(t), PublishStep(i), false, t.outputs[|s.outputs|..])
  {
    PublishTestExact(s.r, s.log, i);
  }

  lemma QuietRefines(s: State, step: Step, repaired: bool, t: State)
    requires Good(s) && Enabled(s, step, repaired) && t == Next(s, step, repaired) && Good(t)
    requires step.CopyStep? || step.BackOffStep? || step.RemoveStep?
    ensures Abstract(t) == Abstract(s) && t.outputs == s.outputs
  {
    if step.RemoveStep? {
      RemoveRefines(s, step, repaired, t);
    }
  }

  lemma RemoveRefines(s: State, step: Step, repaired: bool, t: State)
    requires Good(s) && Enabled(s, step, repaired) && t == Next(s, step, repaired) && Good(t) && step.RemoveStep?
    ensures Abstract(t) == Abstract(s) && t.outputs == s.outputs
  {
    MustWaitExact(s.r, s.log, step.i, step.stray);
  }

  lemma DequeueRefines(s: State, stray: nat, repaired: bool, t: State)
    requires Good(s) && Enabled(s, DequeueStep(stray), repaired) && t == Next(s, DequeueStep(stray), repaired) &&
      Good(t)
    ensures s.outputs <= t.outputs
    ensures AbstractStep(Abstract(s), Abstract(t), DequeueStep(stray), false, t.outputs[|s.outputs|..])
  {
    BoundariesDistinct(s.r, s.log, s.log.taken, s.log.published);
    if DequeueFinds(s) {
      GotOldest(s, stray, repaired);
      HistoryTake(s, t);
    }
  }
}
