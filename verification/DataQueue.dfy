/**
 The data queue object: offsets and flags in its fields, entries in a byte array that is written in place.
 Each method body is one critical section, or the copying in between; `log` is proof bookkeeping.
 */
module DataQueues {
  import opened ByteStore
  import opened RingModel
  import opened RingProtocol
  import opened Options

  /** The pieces of a scatter-gather request, joined. */
  function Concat(pieces: seq<seq<byte>>): seq<byte> {
    if pieces == [] then [] else Concat(pieces[..|pieces| - 1]) + pieces[|pieces| - 1]
  }

  /** What the queue still owes its consumers: the data of the reserved entries not yet handed out. */
  ghost function Payloads(live: seq<Entry>): seq<seq<byte>> {
    seq(|live|, i requires 0 <= i < |live| => live[i].payload)
  }

  class DataQueue {
    const queue: array<byte>
    var head: nat
    var tail: nat
    var validDataHead: nat
    var validDataTail: nat
    var waitersForTailPropagation: nat
    ghost var log: Log

    ghost function State(): Ring
      reads this, queue
    {
      Ring(head, tail, validDataHead, validDataTail, waitersForTailPropagation, queue[..])
    }

    ghost predicate Valid()
      reads this, queue
    {
      Inv(State(), log)
    }

    ghost function Pending(): seq<seq<byte>>
      reads this
    {
      if log.taken <= |log.live| then Payloads(log.live[log.taken..]) else []
    }

    constructor (capacity: nat)
      requires capacity < U32
      ensures Valid() && fresh(queue) && queue.Length == capacity
      ensures head == tail == validDataHead == validDataTail == 0 && log == Log([], 0, 0, 0)
    {
      queue := new byte[capacity];
      head, tail, validDataHead, validDataTail, waitersForTailPropagation := 0, 0, 0, 0, 0;
      log := Log([], 0, 0, 0);
    }

    /** Stores the 32-bit size and clears both flags. */
    method WriteHeader(at: nat, n: nat)
      requires n < U32 && at + HEADER <= queue.Length
      modifies queue
      ensures queue[..] == PutHeader(old(queue[..]), at, n)
    {
      queue[at] := n % 0x100;
      queue[at + 1] := n / 0x100 % 0x100;
      queue[at + 2] := n / 0x1_0000 % 0x100;
      queue[at + 3] := n / 0x100_0000;
      queue[at + 4] := 0;
      queue[at + 5] := 0;
    }

    method ReadSize(at: nat) returns (n: nat)
      requires at + HEADER <= queue.Length
      ensures n == SizeAt(queue[..], at)
    {
      n := (queue[at] as int) + 0x100 * (queue[at + 1] as int) + 0x1_0000 * (queue[at + 2] as int) +
        0x100_0000 * (queue[at + 3] as int);
    }

    /** The wrap test at an offset; the size is read only when a header fits there. */
    method WrapsAt(at: nat, ghost stray: nat) returns (wraps: bool)
      ensures wraps == WrapTest(queue.Length, at, SizeRead(State(), at, stray))
    {
      wraps := at + HEADER > queue.Length;
      if !wraps {
        var n := ReadSize(at);
        wraps := (at + n) % U32 + HEADER > queue.Length;
      }
    }

    /** First critical section of a producer: find room and move the tail. */
    method Reserve(dataSize: nat, ghost payload: seq<byte>)
            returns (reserved: bool, entry: nat, oldTail: nat, newTail: nat)
      requires Valid() && |payload| == dataSize
      modifies this`tail, this`log, queue
      ensures Valid()
      ensures reserved == !Place(old(State()), dataSize).Full?
      ensures reserved <==> HasRoom(old(State()), old(log), dataSize)
      ensures oldTail == old(tail)
      ensures reserved ==> entry == if RoomAt(old(State()), old(log), dataSize, old(tail)) then old(tail) else 0
      ensures !reserved ==> State() == old(State()) && log == old(log)
      ensures reserved ==> log == ReserveLog(old(State()), old(log), payload)
      ensures reserved ==>
        log.live[|old(log.live)|] == Entry(oldTail, entry, payload, 0, false) && newTail == entry + HEADER + dataSize
    {
      TailBounded(State(), log);
      PlaceExact(State(), log, dataSize);
      var entrySize := dataSize + HEADER;
      reserved, entry, oldTail := false, 0, tail;
      label start:
      if tail >= head {
        if tail + entrySize <= queue.Length {
          entry, reserved := tail, true;
          WriteHeader(tail, dataSize);
          tail := tail + entrySize;
        } else if head > entrySize {
          if queue.Length - tail >= HEADER {
            WriteHeader(tail, dataSize);
          }
          WriteHeader(0, dataSize);
          entry, reserved := 0, true;
          tail := entrySize;
        }
      } else {
        if head - tail > entrySize {
          entry, reserved := tail, true;
          WriteHeader(tail, dataSize);
          tail := tail + entrySize;
        }
      }
      newTail := tail;
      if reserved {
        assert State() == RingModel.Reserve(old(State()), dataSize);
        ReserveKeeps(old(State()), log, payload);
        log := ReserveLog(old(State()), log, payload);
      }
    }

    method WriteBytes(at: nat, b: seq<byte>)
      requires at + |b| <= queue.Length
      modifies queue
      ensures queue[..] == Splice(old(queue[..]), at, b)
    {
      forall k | 0 <= k < |b| {
        queue[at + k] := b[k];
      }
    }

    /** Copies one more piece behind what has been copied of entry `i`; no lock is held. */
    method CopyPiece(ghost i: nat, entry: nat, accumulated: nat, piece: seq<byte>)
      requires Valid() && i < |log.live| && log.live[i].at == entry && log.live[i].copied == accumulated
      requires accumulated + |piece| <= |log.live[i].payload|
      requires piece == log.live[i].payload[accumulated..accumulated + |piece|]
      modifies this`log, queue
      ensures Valid() && log == CopyLog(old(log), i, |piece|) && End(log.live[i]) <= queue.Length
      ensures queue[..] == Splice(old(queue[..]), entry + HEADER + accumulated, piece)
    {
      ghost var copied, copiedLog := PieceCopied(State(), log, i, piece);
      WriteBytes(entry + HEADER + accumulated, piece);
      log := copiedLog;
      assert State() == copied;
    }

    /** Second critical section when an earlier producer is still copying: mark the entry and sleep. */
    method BackOff(ghost i: nat, entry: nat, oldTail: nat)
      requires Valid() && log.published <= i < |log.live| && !log.live[i].waiting
      requires log.live[i].at == entry && log.live[i].from == oldTail && oldTail != validDataTail
      modifies this`waitersForTailPropagation, this`log, queue
      ensures Valid() && log == BackOffLog(old(log), i) && End(log.live[i]) <= queue.Length
      ensures State() == RingModel.BackOff(old(State()), entry)
    {
      BackOffKeeps(State(), log, i);
      waitersForTailPropagation := waitersForTailPropagation + 1;
      queue[entry + FLAG] := 1;
      assert queue[..] == Splice(old(queue[..]), entry + FLAG, [1]);
      log := BackOffLog(log, i);
    }

    /** Second critical section of a producer whose turn it is; tells whether the next producer is woken.
        `stray` is the byte behind the queue area. */
    method Publish(ghost i: nat, oldTail: nat, newTail: nat, waited: bool, stray: byte) returns (wakes: bool)
      requires Valid() && i < |log.live| && log.live[i].from == oldTail && End(log.live[i]) == newTail
      requires log.live[i].copied == |log.live[i].payload| && log.live[i].waiting == waited && oldTail == validDataTail
      modifies this`validDataTail, this`waitersForTailPropagation, this`log
      ensures Valid() && log == old(log).(published := i + 1) && i == old(log.published)
      ensures State() == RingModel.Publish(old(State()), newTail, waited)
      ensures wakes == Wakes(State(), stray)
    {
      PublishKeeps(State(), log, i);
      PublishTestExact(State(), log, i);
      if waited {
        waitersForTailPropagation := waitersForTailPropagation - 1;
      }
      validDataTail := newTail;
      wakes := waitersForTailPropagation != 0;
      if wakes {
        var flag := if newTail + HEADER <= queue.Length then queue[newTail + FLAG] else stray;
        wakes := flag != 0;
      }
      log := log.(published := i + 1);
    }

    method TotalSize(pieces: seq<seq<byte>>) returns (dataSize: nat)
      ensures dataSize == |Concat(pieces)|
    {
      dataSize := 0;
      for i := 0 to |pieces|
        invariant dataSize == |Concat(pieces[..i])|
      {
        ConcatPrefix(pieces, i);
        dataSize := dataSize + |pieces[i]|;
      }
      assert pieces[..|pieces|] == pieces;
    }

    /** Copies all pieces into entry `k`, one after the other. */
    method CopyPieces(ghost k: nat, entry: nat, pieces: seq<seq<byte>>)
      requires Valid() && k < |log.live| && log.live[k].at == entry && log.live[k].copied == 0
      requires log.live[k].payload == Concat(pieces)
      modifies this`log, queue
      ensures Valid() && log == CopyLog(old(log), k, |Concat(pieces)|)
    {
      var accumulated := 0;
      for i := 0 to |pieces|
        invariant accumulated == |Concat(pieces[..i])| <= |Concat(pieces)|
        invariant Valid() && log == CopyLog(old(log), k, accumulated)
      {
        PieceInPlace(pieces, i);
        CopyLogTwice(old(log), k, accumulated, |pieces[i]|);
        CopyPiece(k, entry, accumulated, pieces[i]);
        accumulated := accumulated + |pieces[i]|;
      }
      assert pieces[..|pieces|] == pieces;
    }

    /** A whole enqueue call that no other producer overlaps. */
    method EnqueueScatterGather(pieces: seq<seq<byte>>, stray: byte) returns (ok: bool)
      requires Valid() && validDataTail == tail
      modifies this`tail, this`validDataTail, this`waitersForTailPropagation, this`log, queue
      ensures Valid() && validDataTail == tail
      ensures ok <==> HasRoom(old(State()), old(log), |Concat(pieces)|)
      ensures Pending() == if ok then old(Pending()) + [Concat(pieces)] else old(Pending())
    {
      ghost var k, before := |log.live|, log;
      BoundariesDistinct(State(), log, log.published, k);
      var dataSize := TotalSize(pieces);
      var reserved, entry, oldTail, newTail := Reserve(dataSize, Concat(pieces));
      ok := reserved;
      if ok {
        CopyPieces(k, entry, pieces);
        var wakes := Publish(k, oldTail, newTail, false, stray);
        PendingAppend(before, log, Concat(pieces));
      }
    }

    /** Hands out an entry in place; `stray` is the word behind the queue area. The oldest published entry comes out
        whenever the wrap test at the head is right, and it is right when every entry handed out has been given back. */
    method DequeueDataInPlace(stray: nat) returns (found: bool, entry: nat)
      requires Valid()
      modifies this`validDataHead, this`log
      ensures found <==> old(validDataHead) != validDataTail
      ensures !found ==> State() == old(State()) && log == old(log)
      ensures found ==> HEADER <= queue.Length && entry == Dequeue(old(State()), stray).0
      ensures found ==> State() == old(State()).(validHead := Dequeue(old(State()), stray).1)
      ensures found && old(validDataHead) == head && queue.Length <= MAX_CAPACITY ==>
        GivesOldest(old(State()), old(log), Dequeue(old(State()), stray))
      ensures found && GivesOldest(old(State()), old(log), Dequeue(old(State()), stray)) ==>
        && Valid() && log == old(log).(taken := old(log.taken) + 1)
        && old(Pending()) != [] && DataAt(queue[..], entry) == Some(old(Pending())[0]) &&
          Pending() == old(Pending())[1..]
    {
      found, entry := validDataHead != validDataTail, 0;
      if found {
        ghost var right := OldestGiven(State(), log, stray);
        entry, validDataHead := FindOldest(stray);
        if right { log := log.(taken := log.taken + 1); }
      }
    }

    /** The entry at the valid head, found through the wrap test at the head. */
    method FindOldest(stray: nat) returns (entry: nat, newHead: nat)
      requires HEADER <= queue.Length
      ensures (entry, newHead) == Dequeue(State(), stray)
    {
      var n := stray;
      if validDataHead + HEADER <= queue.Length {
        n := ReadSize(validDataHead);
      }
      if head + HEADER > queue.Length || (head + n) % U32 + HEADER > queue.Length {
        n := ReadSize(0);
        entry, newHead := 0, n + HEADER;
      } else {
        entry, newHead := validDataHead, validDataHead + n + HEADER;
      }
    }

    /** Where the head goes when the entry at it is given back. */
    method HeadBehind(entry: nat, ghost stray: nat) returns (newHead: nat)
      requires entry + HEADER <= queue.Length
      ensures newHead == Remove(State(), entry, stray).head
    {
      var n := ReadSize(entry);
      var wraps := WrapsAt(head, stray);
      newHead := if wraps then n + HEADER else head + n + HEADER;
    }

    /** Whether the entry at the head is another one: the wait test. */
    method OlderIsOut(entry: nat, ghost stray: nat) returns (waits: bool)
      ensures waits == MustWait(State(), entry, stray)
    {
      waits := false;
      if head != entry {
        var wraps := WrapsAt(head, stray);
        waits := !(entry == 0 && wraps);
      }
    }

    /** Gives back entry `k`; tells when it has to wait because an older entry is still out. */
    method RemoveEntry(ghost k: nat, entry: nat, ghost stray: nat) returns (waits: bool)
      requires Valid() && k < log.taken && log.live[k].at == entry && queue.Length <= MAX_CAPACITY
      modifies this`head, this`log
      ensures Valid() && Pending() == old(Pending()) && entry + HEADER <= queue.Length
      ensures waits <==> k != 0
      ensures waits ==> State() == old(State()) && log == old(log)
      ensures !waits ==> log == RemoveLog(old(log)) && State() == Remove(old(State()), entry, stray)
    {
      MustWaitExact(State(), log, k, stray);
      assert Stored(queue[..], log.live[k]);
      waits := OlderIsOut(entry, stray);
      if !waits {
        EntryRemoved(State(), log, stray);
        head := HeadBehind(entry, stray);
        log := RemoveLog(log);
      }
    }
  }

  lemma PendingAppend(before: Log, log: Log, payload: seq<byte>)
    requires before.taken <= |before.live| && log.taken == before.taken && |log.live| == |before.live| + 1
    requires log.live[..|before.live|] == before.live && log.live[|before.live|].payload == payload
    ensures Payloads(log.live[log.taken..]) == Payloads(before.live[before.taken..]) + [payload]
  {
    assert forall i: nat {:trigger log.live[i]} :: i < |before.live| ==> log.live[i] == log.live[..|before.live|][i];
  }

  /** Copying a piece, seen on the whole state. */
  lemma PieceCopied(r: Ring, log: Log, i: nat, piece: seq<byte>) returns (r': Ring, log': Log)
    requires Inv(r, log) && i < |log.live| && log.live[i].copied + |piece| <= |log.live[i].payload|
    requires piece == log.live[i].payload[log.live[i].copied..log.live[i].copied + |piece|]
    ensures End(log.live[i]) <= |r.mem| && log' == CopyLog(log, i, |piece|) && Inv(r', log')
    ensures r' == r.(mem := Splice(r.mem, log.live[i].at + HEADER + log.live[i].copied, piece))
  {
    CopyKeeps(r, log, i, |piece|);
    r', log' := Copy(r, log.live[i].at, log.live[i].copied, piece), CopyLog(log, i, |piece|);
  }

  /** Dequeueing, seen on the whole state. */
  lemma OldestGiven(r: Ring, log: Log, stray: nat) returns (right: bool)
    requires Inv(r, log) && r.validHead != r.validTail
    ensures HEADER <= |r.mem| && right == GivesOldest(r, log, Dequeue(r, stray))
    ensures r.validHead == r.head && |r.mem| <= MAX_CAPACITY ==> right
    ensures right ==>
      && Inv(r.(validHead := Dequeue(r, stray).1), log.(taken := log.taken + 1)) && log.taken < |log.live|
      && Payloads(log.live[log.taken..]) != []
      && DataAt(r.mem, Dequeue(r, stray).0) == Some(Payloads(log.live[log.taken..])[0])
      && Payloads(log.live[log.taken + 1..]) == Payloads(log.live[log.taken..])[1..]
  {
    DequeueRightIff(r, log, stray);
    if r.validHead == r.head && |r.mem| <= MAX_CAPACITY { DequeueOneAtATime(r, log, stray); }
    right := GivesOldest(r, log, Dequeue(r, stray));
    if right {
      DequeueKeeps(r, log, Dequeue(r, stray));
      PendingStep(log);
    }
  }

  /** Giving back the oldest entry, seen on the whole state. */
  lemma EntryRemoved(r: Ring, log: Log, stray: nat)
    requires Inv(r, log) && log.taken > 0 && |r.mem| <= MAX_CAPACITY
    ensures log.live != [] && log.live[0].at + HEADER <= |r.mem| && log.published > 0
    ensures Inv(Remove(r, log.live[0].at, stray), RemoveLog(log)) && log.taken <= |log.live|
    ensures Payloads(RemoveLog(log).live[RemoveLog(log).taken..]) == Payloads(log.live[log.taken..])
  {
    RemoveKeeps(r, log, stray);
    assert log.live[log.taken..] == log.live[1..][log.taken - 1..];
  }

  lemma PendingStep(log: Log)
    requires log.taken < |log.live|
    ensures Payloads(log.live[log.taken..]) != [] && Payloads(log.live[log.taken..])[0] == log.live[log.taken].payload
    ensures Payloads(log.live[log.taken + 1..]) == Payloads(log.live[log.taken..])[1..]
  {
  }

  lemma {:induction false} ConcatPrefix(pieces: seq<seq<byte>>, i: nat)
    requires i < |pieces|
    ensures Concat(pieces[..i + 1]) == Concat(pieces[..i]) + pieces[i]
    ensures Concat(pieces[..i + 1]) <= Concat(pieces)
    decreases |pieces|
  {
    assert pieces[..i + 1][..i] == pieces[..i];
    if i + 1 < |pieces| {
      var front := pieces[..|pieces| - 1];
      ConcatPrefix(front, i);
      assert front[..i + 1] == pieces[..i + 1];
    } else {
      assert pieces[..i + 1] == pieces;
    }
  }

  /** Piece `i` stands in the concatenation right behind the pieces before it. */
  lemma PieceInPlace(pieces: seq<seq<byte>>, i: nat)
    requires i < |pieces|
    ensures var a, b := |Concat(pieces[..i])|, |Concat(pieces[..i + 1])|;
      b == a + |pieces[i]| && b <= |Concat(pieces)| && Concat(pieces)[a..b] == pieces[i]
  {
    ConcatPrefix(pieces, i);
    var front, some := Concat(pieces[..i]), Concat(pieces[..i + 1]);
    assert some[|front|..] == pieces[i] && Concat(pieces)[..|some|] == some;
  }

  lemma CopyLogTwice(log: Log, i: nat, a: nat, b: nat)
    requires i < |log.live|
    ensures CopyLog(CopyLog(log, i, a), i, b) == CopyLog(log, i, a + b)
  {
    assert CopyLog(CopyLog(log, i, a), i, b).live == CopyLog(log, i, a + b).live;
  }
}
