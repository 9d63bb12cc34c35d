/**
 The data queue as a protocol: any number of producers reserve, copy and publish, consumers dequeue in
 place and give entries back, and the steps of different threads interleave in any order.
 */
module RingProtocol {
  import opened ByteStore
  import opened RingModel
  import opened Options

  // ---------- what each critical section does to the log ----------

  function ReserveLog(r: Ring, log: Log, payload: seq<byte>): Log {
    var slot, count := Place(r, |payload|), |log.live|;
    var at := if slot.At? then slot.offset else 0;
    log.(live := log.live + [Entry(r.tail, at, payload, 0, false)],
         wrap := if slot.Wrapped? then count else if log.wrap == count then count + 1 else log.wrap)
  }

  function CopyLog(log: Log, i: nat, k: nat): Log
    requires i < |log.live|
  {
    log.(live := log.live[i := log.live[i].(copied := log.live[i].copied + k)])
  }

  function BackOffLog(log: Log, i: nat): Log
    requires i < |log.live|
  {
    log.(live := log.live[i := log.live[i].(waiting := true)])
  }

  function RemoveLog(log: Log): Log
    requires log.live != [] && log.taken > 0 && log.published > 0
  {
    Log(log.live[1..], log.taken - 1, log.published - 1, if log.wrap == 0 then |log.live| - 1 else log.wrap - 1)
  }

  // ---------- reserving ----------

  lemma TailFree(r: Ring, log: Log, i: nat)
    requires Layout(r, log) && i < |log.live|
    ensures (r.tail >= r.head) == (log.wrap == |log.live|)
    ensures if i < log.wrap < |log.live| then log.live[i].at >= r.head else End(log.live[i]) <= r.tail
    ensures log.wrap == |log.live| ==> r.head <= log.live[i].at
  {
    var last := |log.live| - 1;
    assert Placed(r.head, |r.mem|, log.wrap, last, log.live[last]) && Placed(r.head, |r.mem|, log.wrap, i, log.live[i]);
    assert Ordered(log.wrap, i, last, log.live[i], log.live[last]);
  }

  /** An entry with `n` data bytes fits at offset `p`: it lies inside the queue area, ends before the head when it
      begins
      before it, so that the tail does not catch up with the head, and overlaps no live entry. */
  ghost predicate RoomAt(r: Ring, log: Log, n: nat, p: nat) {
    && p + n + HEADER <= |r.mem|
    && (p < r.head ==> p + n + HEADER < r.head)
    && forall i: nat {:trigger log.live[i]} :: i < |log.live| ==>
      End(log.live[i]) <= p || p + n + HEADER <= log.live[i].at
  }

  /** There is room at the tail or at the beginning. */
  ghost predicate HasRoom(r: Ring, log: Log, n: nat) {
    RoomAt(r, log, n, r.tail) || RoomAt(r, log, n, 0)
  }

  /** A new entry goes to the tail whenever there is room at the tail, else to the beginning whenever there is room
      there,
      and is refused only when there is room at neither. */
  lemma PlaceExact(r: Ring, log: Log, n: nat)
    requires Layout(r, log)
    ensures Place(r, n) == if RoomAt(r, log, n, r.tail) then At(r.tail) else if RoomAt(r, log, n, 0) then Wrapped
      else Full
  {
    EmptyIffHeadIsTail(r, log);
    forall i: nat {:trigger log.live[i]} | i < |log.live|
      ensures if r.tail >= r.head then r.head <= log.live[i].at && End(log.live[i]) <= r.tail
        else r.head <= log.live[i].at || End(log.live[i]) <= r.tail {
      TailFree(r, log, i);
      assert Placed(r.head, |r.mem|, log.wrap, i, log.live[i]);
    }
    if r.tail < r.head {
      WrappedAtStart(r, log);
      assert !RoomAt(r, log, n, 0);
    } else if log.live != [] {
      assert Placed(r.head, |r.mem|, log.wrap, 0, log.live[0]) && log.live[0].at == r.head;
    }
  }

  /** When the tail is below the head, the entry that wrapped around lies at the beginning. */
  lemma WrappedAtStart(r: Ring, log: Log)
    requires Layout(r, log) && r.tail < r.head
    ensures log.wrap < |log.live| && log.live[log.wrap].at == 0
  {
    EmptyIffHeadIsTail(r, log);
    TailFree(r, log, 0);
    assert Placed(r.head, |r.mem|, log.wrap, log.wrap, log.live[log.wrap]);
  }

  lemma StoredKept(mem: seq<byte>, e: Entry, at: nat, b: seq<byte>)
    requires Stored(mem, e) && at + |b| <= |mem|
    requires End(e) <= at || at + |b| <= e.at
    ensures Stored(Splice(mem, at, b), e)
  {
    HeaderKept(mem, at, b, e.at);
    SpliceOutside(mem, at, b, e.at + HEADER, e.at + HEADER + e.copied);
  }

  lemma ReserveOrder(r: Ring, log: Log, payload: seq<byte>, log': Log, i: nat, j: nat)
    requires Layout(r, log) && !Place(r, |payload|).Full? && log' == ReserveLog(r, log, payload)
    requires i < |log'.live| && j < |log'.live|
    ensures Ordered(log'.wrap, i, j, log'.live[i], log'.live[j])
  {
    var live, count := log.live, |log.live|;
    EmptyIffHeadIsTail(r, log);
    if i < count {
      TailFree(r, log, i);
      assert Placed(r.head, |r.mem|, log.wrap, i, live[i]);
      if j < count { assert Ordered(log.wrap, i, j, live[i], live[j]); }
    }
  }

  lemma ReservePlaced(r: Ring, log: Log, payload: seq<byte>, log': Log, i: nat)
    requires Layout(r, log) && !Place(r, |payload|).Full? && log' == ReserveLog(r, log, payload)
    requires i < |log'.live|
    ensures Placed(r.head, |r.mem|, log'.wrap, i, log'.live[i]) && (i < |log.live| ==> Chained(log'.live, i))
  {
    EmptyIffHeadIsTail(r, log);
    if log.live != [] { TailFree(r, log, |log.live| - 1); }
    if i < |log.live| {
      assert i < |log.live| - 1 ==> Chained(log.live, i);
      assert Placed(r.head, |r.mem|, log.wrap, i, log.live[i]);
    }
  }

  lemma ReserveLayout(r: Ring, log: Log, payload: seq<byte>, q: Ring, log': Log)
    requires Layout(r, log) && r.tail <= |r.mem| && !Place(r, |payload|).Full?
    requires q == Reserve(r, |payload|) && log' == ReserveLog(r, log, payload)
    ensures Layout(q, log')
  {
    EmptyIffHeadIsTail(r, log);
    if log.live != [] { TailFree(r, log, |log.live| - 1); }
    forall i: nat {:trigger Placed(r.head, |r.mem|, log'.wrap, i, log'.live[i])} | i < |log'.live|
      ensures Placed(r.head, |r.mem|, log'.wrap, i, log'.live[i])
    {
      ReservePlaced(r, log, payload, log', i);
    }
    forall i: nat {:trigger Chained(log'.live, i)} | i < |log.live|
      ensures Chained(log'.live, i)
    {
      ReservePlaced(r, log, payload, log', i);
    }
    forall i: nat, j: nat {:trigger Ordered(log'.wrap, i, j, log'.live[i], log'.live[j])} | i < |log'.live| &&
      j < |log'.live|
      ensures Ordered(log'.wrap, i, j, log'.live[i], log'.live[j])
    {
      ReserveOrder(r, log, payload, log', i, j);
    }
  }

  /** A reservation leaves alone every stored entry outside the free space. */
  lemma ReserveMemory(r: Ring, n: nat, e: Entry)
    requires r.head <= |r.mem| < U32 && r.tail <= |r.mem| && !Place(r, n).Full?
    requires Stored(r.mem, e)
    requires if r.tail >= r.head then r.head <= e.at && End(e) <= r.tail else End(e) <= r.tail || r.head <= e.at
    ensures Stored(Reserve(r, n).mem, e)
  {
    var slot, h := Place(r, n), HeaderBytes(n);
    if slot.Wrapped? {
      var m := if |r.mem| - r.tail >= HEADER then PutHeader(r.mem, r.tail, n) else r.mem;
      if |r.mem| - r.tail >= HEADER {
        StoredKept(r.mem, e, r.tail, h);
      }
      StoredKept(m, e, 0, h);
    } else {
      StoredKept(r.mem, e, slot.offset, h);
    }
  }

  lemma NewEntryStored(r: Ring, payload: seq<byte>)
    requires r.head <= |r.mem| < U32 && r.tail <= |r.mem| && !Place(r, |payload|).Full?
    ensures var slot := Place(r, |payload|);
            var e := Entry(r.tail, if slot.At? then slot.offset else 0, payload, 0, false);
            Stored(Reserve(r, |payload|).mem, e) && (slot.Wrapped? ==> Trampoline(Reserve(r, |payload|).mem, e))
  {
    var n, slot := |payload|, Place(r, |payload|);
    if slot.Wrapped? {
      var m := if |r.mem| - r.tail >= HEADER then PutHeader(r.mem, r.tail, n) else r.mem;
      HeaderRoundTrip(m, 0, n);
      if |r.mem| - r.tail >= HEADER {
        HeaderRoundTrip(r.mem, r.tail, n);
        HeaderKept(m, 0, HeaderBytes(n), r.tail);
      }
    } else {
      HeaderRoundTrip(r.mem, slot.offset, n);
    }
  }

  lemma ReserveBytes(r: Ring, log: Log, payload: seq<byte>, q: Ring, log': Log)
    requires Layout(r, log) && Bytes(r, log) && r.tail <= |r.mem| && !Place(r, |payload|).Full?
    requires q == Reserve(r, |payload|) && log' == ReserveLog(r, log, payload)
    ensures Bytes(q, log')
  {
    forall i: nat {:trigger Stored(q.mem, log'.live[i])} | i < |log.live|
      ensures Stored(q.mem, log'.live[i])
    {
      assert Stored(r.mem, log.live[i]);
      TailFree(r, log, i);
      ReserveMemory(r, |payload|, log.live[i]);
    }
    NewEntryStored(r, payload);
    EmptyIffHeadIsTail(r, log);
    if log.wrap < |log.live| {
      var e := log.live[log.wrap];
      TailFree(r, log, log.wrap);
      assert Placed(r.head, |r.mem|, log.wrap, log.wrap, e);
      if e.from + HEADER <= |r.mem| {
        HeaderKept(r.mem, r.tail, HeaderBytes(|payload|), e.from);
      }
    } else if log.live != [] {
      TailFree(r, log, 0);
    }
  }

  lemma WaitingAppend(live: seq<Entry>, e: Entry, k: nat)
    requires k <= |live|
    ensures Waiting(live + [e], k) == Waiting(live, k) + if e.waiting then 1 else 0
    decreases |live| - k
  {
    if k < |live| {
      WaitingAppend(live, e, k + 1);
    }
  }

  lemma WaitingUpdate(live: seq<Entry>, k: nat, i: nat, e: Entry)
    requires i < |live|
    ensures Waiting(live[i := e], k) ==
            Waiting(live, k) + if k <= i then (if e.waiting then 1 else 0) - (if live[i].waiting then 1 else 0) else 0
    decreases |live| - k
  {
    if k < |live| {
      WaitingUpdate(live, k + 1, i, e);
    }
  }

  lemma WaitingDrop(live: seq<Entry>, k: nat)
    requires live != [] && 0 < k
    ensures Waiting(live[1..], k - 1) == Waiting(live, k)
    decreases |live| - k
  {
    if k < |live| {
      WaitingDrop(live, k + 1);
    }
  }

  lemma TailBounded(r: Ring, log: Log)
    requires Layout(r, log)
    ensures r.tail <= |r.mem| && r.head <= |r.mem| < U32
  {
    if log.live != [] {
      var last := |log.live| - 1;
      assert Placed(r.head, |r.mem|, log.wrap, last, log.live[last]);
    }
  }

  lemma ReserveWindow(r: Ring, log: Log, payload: seq<byte>, q: Ring, log': Log)
    requires Window(r, log) && r.tail <= |r.mem| && r.head <= |r.mem| < U32 && !Place(r, |payload|).Full?
    requires q == Reserve(r, |payload|) && log' == ReserveLog(r, log, payload)
    ensures Window(q, log')
  {
    WaitingAppend(log.live, log'.live[|log.live|], log.published);
  }

  lemma ReserveKeeps(r: Ring, log: Log, payload: seq<byte>)
    requires Inv(r, log) && !Place(r, |payload|).Full?
    ensures r.tail <= |r.mem| && r.head <= |r.mem| < U32
    ensures Inv(Reserve(r, |payload|), ReserveLog(r, log, payload))
  {
    TailBounded(r, log);
    var q, log' := Reserve(r, |payload|), ReserveLog(r, log, payload);
    ReserveLayout(r, log, payload, q, log');
    ReserveBytes(r, log, payload, q, log');
    ReserveWindow(r, log, payload, q, log');
  }

  // ---------- copying, waiting, publishing ----------

  /** Entry `i` touches no other entry, nor the header left at the old tail. */
  ghost predicate Apart(log: Log, i: nat)
    requires i < |log.live|
  {
    && (forall j :: 0 <= j < |log.live| && j != i ==>
      End(log.live[j]) <= log.live[i].at || End(log.live[i]) <= log.live[j].at)
    && (log.wrap < |log.live| ==> End(log.live[i]) <= log.live[log.wrap].from)
  }

  lemma EntriesApart(r: Ring, log: Log, i: nat)
    requires Layout(r, log) && i < |log.live|
    ensures Apart(log, i)
  {
    forall j: nat | j < |log.live| && j != i
      ensures End(log.live[j]) <= log.live[i].at || End(log.live[i]) <= log.live[j].at
    {
      if i < j { EntriesDisjoint(r, log, i, j); } else { EntriesDisjoint(r, log, j, i); }
    }
    var w := log.wrap;
    if w < |log.live| {
      assert Placed(r.head, |r.mem|, w, w, log.live[w]) && Placed(r.head, |r.mem|, w, i, log.live[i]);
      if i < w {
        BoundaryOrder(r, log, i, i + 1);
        if i + 1 < w { BoundaryOrder(r, log, i + 1, w); }
      }
    }
  }

  /** Rewriting bytes inside entry `i` cannot touch any other entry, nor the header left at the old tail. */
  lemma OthersKept(r: Ring, log: Log, i: nat, at: nat, b: seq<byte>)
    requires Bytes(r, log) && i < |log.live| && Apart(log, i)
    requires log.live[i].at <= at && at + |b| <= End(log.live[i]) <= |r.mem|
    ensures forall j: nat {:trigger Stored(Splice(r.mem, at, b), log.live[j])} ::
              j < |log.live| && j != i ==> Stored(Splice(r.mem, at, b), log.live[j])
    ensures log.wrap < |log.live| ==> Trampoline(Splice(r.mem, at, b), log.live[log.wrap])
  {
    forall j: nat {:trigger Stored(Splice(r.mem, at, b), log.live[j])} | j < |log.live| && j != i
      ensures Stored(Splice(r.mem, at, b), log.live[j])
    {
      assert Stored(r.mem, log.live[j]);
      StoredKept(r.mem, log.live[j], at, b);
    }
    if log.wrap < |log.live| && log.live[log.wrap].from + HEADER <= |r.mem| {
      HeaderKept(r.mem, at, b, log.live[log.wrap].from);
    }
  }

  lemma UpdatePlaced(r: Ring, log: Log, i: nat, e: Entry, live': seq<Entry>, k: nat)
    requires Layout(r, log) && i < |log.live| && k < |log.live| && live' == log.live[i := e]
    requires e.from == log.live[i].from && e.at == log.live[i].at && e.payload == log.live[i].payload
    ensures Placed(r.head, |r.mem|, log.wrap, k, live'[k]) && (k < |log.live| - 1 ==> Chained(live', k))
  {
    assert Placed(r.head, |r.mem|, log.wrap, k, log.live[k]);
    assert k < |log.live| - 1 ==> Chained(log.live, k);
  }

  lemma UpdateOrder(r: Ring, log: Log, i: nat, e: Entry, live': seq<Entry>, k: nat, j: nat)
    requires Layout(r, log) && i < |log.live| && k < |log.live| && j < |log.live| && live' == log.live[i := e]
    requires e.at == log.live[i].at && e.payload == log.live[i].payload
    ensures Ordered(log.wrap, k, j, live'[k], live'[j])
  {
    assert Ordered(log.wrap, k, j, log.live[k], log.live[j]);
  }

  /** Changing only what has been copied, or the waiting mark, does not move any entry. */
  lemma UpdateLayout(r: Ring, log: Log, i: nat, e: Entry, q: Ring, log': Log)
    requires Layout(r, log) && i < |log.live| && |q.mem| == |r.mem| && q.head == r.head && q.tail == r.tail
    requires log'.wrap == log.wrap && log'.live == log.live[i := e]
    requires e.from == log.live[i].from && e.at == log.live[i].at && e.payload == log.live[i].payload
    ensures Layout(q, log')
  {
    forall k: nat {:trigger Placed(r.head, |r.mem|, log.wrap, k, log'.live[k])} | k < |log.live|
      ensures Placed(r.head, |r.mem|, log.wrap, k, log'.live[k])
    {
      UpdatePlaced(r, log, i, e, log'.live, k);
    }
    forall k: nat {:trigger Chained(log'.live, k)} | k < |log.live| - 1
      ensures Chained(log'.live, k)
    {
      UpdatePlaced(r, log, i, e, log'.live, k);
    }
    forall k: nat, j: nat {:trigger Ordered(log.wrap, k, j, log'.live[k], log'.live[j])} | k < |log.live| &&
      j < |log.live|
      ensures Ordered(log.wrap, k, j, log'.live[k], log'.live[j])
    {
      UpdateOrder(r, log, i, e, log'.live, k, j);
    }
  }

  /** One entry is advanced and its bytes with it; everything else is as before. */
  lemma UpdateKeeps(r: Ring, log: Log, i: nat, e: Entry, at: nat, b: seq<byte>, q: Ring, log': Log)
    requires Inv(r, log) && i < |log.live| && (i < log.published ==> e == log.live[i])
    requires e.from == log.live[i].from && e.at == log.live[i].at && e.payload == log.live[i].payload
    requires e.at <= at && at + |b| <= End(e) <= |r.mem| && Stored(Splice(r.mem, at, b), e)
    requires log.live[i].waiting ==> e.waiting
    requires q == r.(mem := q.mem, waiters := r.waiters + if e.waiting && !log.live[i].waiting then 1 else 0)
    requires q.mem == Splice(r.mem, at, b) && log' == log.(live := log.live[i := e])
    ensures Inv(q, log')
  {
    EntriesApart(r, log, i);
    UpdateLayout(r, log, i, e, q, log');
    WaitingUpdate(log.live, log.published, i, e);
    UpdateWindow(r, log, i, e, q, log');
    UpdateBytes(r, log, i, e, at, b, q, log');
  }

  lemma UpdateBytes(r: Ring, log: Log, i: nat, e: Entry, at: nat, b: seq<byte>, q: Ring, log': Log)
    requires Bytes(r, log) && i < |log.live| && Apart(log, i)
    requires e.from == log.live[i].from && e.at == log.live[i].at && e.payload == log.live[i].payload
    requires e.at <= at && at + |b| <= End(e) <= |r.mem| && Stored(Splice(r.mem, at, b), e)
    requires q.mem == Splice(r.mem, at, b) && log'.live == log.live[i := e] && log'.wrap == log.wrap
    ensures Bytes(q, log')
  {
    OthersKept(r, log, i, at, b);
    forall j: nat {:trigger Stored(q.mem, log'.live[j])} | j < |log.live|
      ensures Stored(q.mem, log'.live[j])
    {
      assert j != i ==> log'.live[j] == log.live[j];
    }
  }

  lemma UpdateWindow(r: Ring, log: Log, i: nat, e: Entry, q: Ring, log': Log)
    requires Window(r, log) && i < |log.live| && (i < log.published ==> e == log.live[i])
    requires e.from == log.live[i].from
    requires q.validHead == r.validHead && q.validTail == r.validTail && q.tail == r.tail
    requires log'.taken == log.taken && log'.published == log.published && log'.live == log.live[i := e]
    requires q.waiters == Waiting(log'.live, log.published)
    ensures Window(q, log')
  {
    assert forall k :: 0 <= k < |log.live| ==> log'.live[k].from == log.live[k].from;
  }

  lemma CopyStored(mem: seq<byte>, e: Entry, k: nat)
    requires Stored(mem, e) && e.copied + k <= |e.payload|
    ensures Stored(Splice(mem, e.at + HEADER + e.copied, e.payload[e.copied..e.copied + k]), e.(copied := e.copied + k))
  {
    var at, b := e.at + HEADER + e.copied, e.payload[e.copied..e.copied + k];
    HeaderKept(mem, at, b, e.at);
    SpliceExtends(mem, at, b, e.at + HEADER);
    assert e.payload[..e.copied] + b == e.payload[..e.copied + k];
  }

  lemma CopyKeeps(r: Ring, log: Log, i: nat, k: nat)
    requires Inv(r, log) && i < |log.live| && log.live[i].copied + k <= |log.live[i].payload|
    ensures End(log.live[i]) <= |r.mem|
    ensures var e := log.live[i];
            Inv(Copy(r, e.at, e.copied, e.payload[e.copied..e.copied + k]), CopyLog(log, i, k))
  {
    var e := log.live[i];
    assert Stored(r.mem, e);
    CopyStored(r.mem, e, k);
    PieceKeeps(r, log, i, e.payload[e.copied..e.copied + k]);
  }

  lemma PieceKeeps(r: Ring, log: Log, i: nat, b: seq<byte>)
    requires Inv(r, log) && i < |log.live| && log.live[i].copied + |b| <= |log.live[i].payload|
    requires End(log.live[i]) <= |r.mem|
    requires var e := log.live[i];
      Stored(Splice(r.mem, e.at + HEADER + e.copied, b), e.(copied := e.copied + |b|))
    ensures Inv(Copy(r, log.live[i].at, log.live[i].copied, b), CopyLog(log, i, |b|))
  {
    var e := log.live[i];
    UpdateKeeps(r, log, i, e.(copied := e.copied + |b|), e.at + HEADER + e.copied, b, Copy(r, e.at, e.copied, b),
      CopyLog(log, i, |b|));
  }

  lemma BackOffKeeps(r: Ring, log: Log, i: nat)
    requires Inv(r, log) && log.published <= i < |log.live| && !log.live[i].waiting
    ensures End(log.live[i]) <= |r.mem|
    ensures Inv(BackOff(r, log.live[i].at), BackOffLog(log, i))
  {
    var e := log.live[i];
    assert Stored(r.mem, e);
    SpliceOutside(r.mem, e.at + FLAG, [1], e.at + HEADER, e.at + HEADER + e.copied);
    UpdateKeeps(r, log, i, e.(waiting := true), e.at + FLAG, [1], BackOff(r, e.at), BackOffLog(log, i));
  }

  /** The offset test of the publishing producer holds exactly when every earlier entry is published. */
  lemma PublishTestExact(r: Ring, log: Log, i: nat)
    requires Inv(r, log) && i < |log.live|
    ensures log.live[i].from == r.validTail <==> i == log.published
  {
    BoundariesDistinct(r, log, i, log.published);
  }

  lemma PublishKeeps(r: Ring, log: Log, i: nat)
    requires Inv(r, log) && i < |log.live| && log.live[i].copied == |log.live[i].payload|
    requires log.live[i].from == r.validTail
    ensures log.live[i].waiting ==> r.waiters > 0
    ensures Inv(Publish(r, End(log.live[i]), log.live[i].waiting), log.(published := i + 1))
  {
    PublishTestExact(r, log, i);
    assert i < |log.live| - 1 ==> Chained(log.live, i);
    assert End(log.live[i]) == Boundary(r, log, i + 1);
    PublishLayout(r, log, Publish(r, End(log.live[i]), log.live[i].waiting), log.(published := i + 1));
  }

  /** Moving the valid window moves no entry. */
  lemma PublishLayout(r: Ring, log: Log, q: Ring, log': Log)
    requires Layout(r, log) && Bytes(r, log) && q.mem == r.mem && q.head == r.head && q.tail == r.tail
    requires log'.live == log.live && log'.wrap == log.wrap
    ensures Layout(q, log') && Bytes(q, log')
  {
  }

  /** Whom the publisher wakes: if the producer of the next entry sleeps, it is woken exactly when its entry
      did not wrap around, unless no header fits at the new tail and the stray byte decides. */
  lemma WakeExact(r: Ring, log: Log, stray: byte)
    requires Inv(r, log) && log.published < |log.live| && log.live[log.published].waiting
    ensures Wakes(r, stray) <==> if r.validTail + HEADER <= |r.mem| then log.published != log.wrap else stray != 0
  {
    var p := log.published;
    assert Stored(r.mem, log.live[p]) && Placed(r.head, |r.mem|, log.wrap, p, log.live[p]);
  }

  // ---------- dequeueing and removing ----------

  /** What a consumer reads from the entry at offset `at`. */
  function DataAt(mem: seq<byte>, at: nat): Option<seq<byte>> {
    if at + HEADER <= |mem| && at + HEADER + SizeAt(mem, at) <= |mem|
    then Some(mem[at + HEADER..at + HEADER + SizeAt(mem, at)]) else None
  }

  /** The dequeue gives out the oldest entry that is not yet taken, and moves the valid head behind it. */
  ghost predicate GivesOldest(r: Ring, log: Log, got: (nat, nat)) {
    && log.taken < log.published && log.taken < |log.live|
    && got == (log.live[log.taken].at, End(log.live[log.taken]))
    && DataAt(r.mem, got.0) == Some(log.live[log.taken].payload)
  }

  /** The wrap test decides the dequeue: with the right answer the oldest entry comes out, with the wrong
      one it does not, except that both answers agree on an entry at offset 0. */
  lemma DequeueByTest(r: Ring, log: Log, base: nat, stray: nat)
    requires Inv(r, log) && log.taken < log.published
    ensures HEADER <= |r.mem|
    ensures GivesOldest(r, log, DequeueFrom(r, base, stray)) <==>
            r.validHead == 0 || (WrapTest(|r.mem|, base, SizeRead(r, r.validHead, stray)) <==> log.taken == log.wrap)
  {
    var e := log.live[log.taken];
    assert Stored(r.mem, e) && Placed(r.head, |r.mem|, log.wrap, log.taken, e);
    assert e.copied == |e.payload| && e.payload[..e.copied] == e.payload;
  }

  /** The dequeue as written, when every dequeued entry has been given back: always right up to 2 GiB. */
  lemma DequeueOneAtATime(r: Ring, log: Log, stray: nat)
    requires Inv(r, log) && r.validHead != r.validTail && r.validHead == r.head && |r.mem| <= MAX_CAPACITY
    ensures log.taken == 0 && HEADER <= |r.mem| && GivesOldest(r, log, Dequeue(r, stray))
  {
    BoundariesDistinct(r, log, log.taken, log.published);
    HeadIsFirstBoundary(r, log);
    BoundariesDistinct(r, log, log.taken, 0);
    WrapTestAtEntry(r, log, 0, stray);
    DequeueByTest(r, log, r.head, stray);
  }

  lemma HeadIsFirstBoundary(r: Ring, log: Log)
    requires Layout(r, log)
    ensures Boundary(r, log, 0) == r.head
  {
  }

  /**
   The dequeue as written, with earlier entries still in the hands of other consumers, in a queue of any size. The
   test starts at the head while the entry is at the valid head. It goes right exactly when the entry is at offset 0,
   or the test says what an unbounded sum at the valid head would say; every term is a field the caller can read.
   */
  lemma DequeueRightIff(r: Ring, log: Log, stray: nat)
    requires Inv(r, log) && r.validHead != r.validTail
    ensures log.taken < log.published && HEADER <= |r.mem|
    ensures var n := SizeRead(r, r.validHead, stray);
            GivesOldest(r, log, Dequeue(r, stray)) <==>
            r.validHead == 0 || (WrapTest(|r.mem|, r.head, n) <==> r.validHead + n + HEADER > |r.mem|)
  {
    BoundariesDistinct(r, log, log.taken, log.published);
    var e := log.live[log.taken];
    DequeueByTest(r, log, r.head, stray);
    assert Stored(r.mem, e) && Placed(r.head, |r.mem|, log.wrap, log.taken, e);
  }

  /** Repaired variant, not the code: with the valid head in the wrap test any number of consumers is served right. */
  lemma RepairedDequeueRight(r: Ring, log: Log, stray: nat)
    requires Inv(r, log) && r.validHead != r.validTail && |r.mem| <= MAX_CAPACITY
    ensures HEADER <= |r.mem| && GivesOldest(r, log, DequeueFrom(r, r.validHead, stray))
  {
    BoundariesDistinct(r, log, log.taken, log.published);
    WrapTestAtEntry(r, log, log.taken, stray);
    DequeueByTest(r, log, r.validHead, stray);
  }

  lemma DequeueKeeps(r: Ring, log: Log, got: (nat, nat))
    requires Inv(r, log) && GivesOldest(r, log, got)
    ensures Inv(r.(validHead := got.1), log.(taken := log.taken + 1))
  {
    var t := log.taken;
    assert t < |log.live| - 1 ==> Chained(log.live, t);
    PublishLayout(r, log, r.(validHead := got.1), log.(taken := t + 1));
    assert Boundary(r, log, t + 1) == got.1;
  }

  /** A consumer that gives an entry back waits exactly when an earlier entry is still out. */
  lemma MustWaitExact(r: Ring, log: Log, k: nat, stray: nat)
    requires Inv(r, log) && k < log.taken && |r.mem| <= MAX_CAPACITY
    ensures MustWait(r, log.live[k].at, stray) <==> k != 0
  {
    WrapTestAtEntry(r, log, 0, stray);
    assert Placed(r.head, |r.mem|, log.wrap, 0, log.live[0]) && Placed(r.head, |r.mem|, log.wrap, k, log.live[k]);
    assert Ordered(log.wrap, 0, k, log.live[0], log.live[k]);
  }

  lemma RemoveBytes(r: Ring, log: Log, q: Ring, log': Log)
    requires Bytes(r, log) && log.taken > 0 && log.published > 0 && log.live != []
    requires q.mem == r.mem && log' == RemoveLog(log)
    ensures Bytes(q, log')
  {
    forall i: nat {:trigger Stored(q.mem, log'.live[i])} | i < |log'.live|
      ensures Stored(q.mem, log'.live[i])
    {
      assert Stored(r.mem, log.live[i + 1]);
    }
  }

  lemma RemoveKeeps(r: Ring, log: Log, stray: nat)
    requires Inv(r, log) && log.taken > 0 && (|r.mem| <= MAX_CAPACITY || log.wrap != 0)
    ensures log.live[0].at + HEADER <= |r.mem|
    ensures Inv(Remove(r, log.live[0].at, stray), RemoveLog(log))
  {
    var e := log.live[0];
    assert Stored(r.mem, e) && Placed(r.head, |r.mem|, log.wrap, 0, e);
    WrapTestAtEntryIff(r, log, 0, stray);
    var q, log' := Remove(r, e.at, stray), RemoveLog(log);
    assert q.head == End(e);
    RemoveLayout(r, log, q, log');
    RemoveWindow(r, log, q, log');
    RemoveBytes(r, log, q, log');
  }

  /** Whose sleep flag a consumer reads after it has given back the oldest entry: that of the next one, wrapped or
      not. */
  lemma RemoverFindsNext(r: Ring, log: Log, stray: nat, strayAfter: nat)
    requires Inv(r, log) && log.taken > 0 && |log.live| > 1 && |r.mem| <= MAX_CAPACITY
    ensures log.live[0].at + HEADER <= |r.mem|
    ensures EntryAtHead(Remove(r, log.live[0].at, stray), strayAfter) == log.live[1].at
  {
    RemoveKeeps(r, log, stray);
    var q, log' := Remove(r, log.live[0].at, stray), RemoveLog(log);
    WrapTestAtEntry(q, log', 0, strayAfter);
    assert Placed(q.head, |q.mem|, log'.wrap, 0, log'.live[0]);
  }

  lemma RemoveWindow(r: Ring, log: Log, q: Ring, log': Log)
    requires Window(r, log) && log.taken > 0 && log' == RemoveLog(log) && q == r.(head := q.head)
    ensures Window(q, log')
  {
    WaitingDrop(log.live, log.published);
    assert forall i: nat :: i < |log'.live| ==> log'.live[i] == log.live[i + 1];
  }

  lemma RemovePlaced(r: Ring, log: Log, log': Log, i: nat)
    requires Layout(r, log) && i < |log.live| - 1 && log.taken > 0 && log.published > 0 && log' == RemoveLog(log)
    ensures Placed(End(log.live[0]), |r.mem|, log'.wrap, i, log'.live[i]) &&
      (i < |log'.live| - 1 ==> Chained(log'.live, i))
  {
    var live, w, cap := log.live, log.wrap, |r.mem|;
    assert Placed(r.head, cap, w, 0, live[0]);
    assert Placed(r.head, cap, w, i + 1, live[i + 1]) && Ordered(w, 0, i + 1, live[0], live[i + 1]);
    assert i < |log'.live| - 1 ==> Chained(live, i + 1);
    if i + 1 == w {
      assert Chained(live, 0);
      if 1 < w { BoundaryOrder(r, log, 1, w); }
    }
  }

  lemma RemoveLayout(r: Ring, log: Log, q: Ring, log': Log)
    requires Layout(r, log) && log.live != [] && log.taken > 0 && log.published > 0
    requires q.head == End(log.live[0]) && q.tail == r.tail && |q.mem| == |r.mem| && log' == RemoveLog(log)
    ensures Layout(q, log')
  {
    RemoveEnds(r, log);
    forall i: nat {:trigger Placed(q.head, |r.mem|, log'.wrap, i, log'.live[i])} | i < |log'.live|
      ensures Placed(q.head, |r.mem|, log'.wrap, i, log'.live[i])
    {
      RemovePlaced(r, log, log', i);
    }
    forall i: nat {:trigger Chained(log'.live, i)} | i < |log'.live| - 1
      ensures Chained(log'.live, i)
    {
      RemovePlaced(r, log, log', i);
    }
    forall i: nat, j: nat {:trigger Ordered(log'.wrap, i, j, log'.live[i], log'.live[j])} | i < |log'.live| &&
      j < |log'.live|
      ensures Ordered(log'.wrap, i, j, log'.live[i], log'.live[j])
    {
      assert Ordered(log.wrap, i + 1, j + 1, log.live[i + 1], log.live[j + 1]);
    }
  }

  lemma RemoveEnds(r: Ring, log: Log)
    requires Layout(r, log) && log.live != []
    ensures End(log.live[0]) <= |r.mem| && (|log.live| > 1 ==> log.live[1].from == End(log.live[0]))
    ensures log.wrap == 0 || log.wrap == |log.live| ==> End(log.live[0]) <= r.tail <= |r.mem|
  {
    var last := |log.live| - 1;
    assert Placed(r.head, |r.mem|, log.wrap, 0, log.live[0]) && Placed(r.head, |r.mem|, log.wrap, last, log.live[last]);
    assert Ordered(log.wrap, 0, last, log.live[0], log.live[last]);
    assert last > 0 ==> Chained(log.live, 0);
  }
}
