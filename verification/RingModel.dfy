/**
 The ring of variable-size entries behind the IPC data queue.

 A `Ring` holds exactly what the shared queue memory holds: the offsets and the bytes. The functions
 below are the critical sections of the queue, one function each. A `Log` is bookkeeping for the proofs
 only: the entries that are reserved and not yet removed, in reservation order.
 */
module RingModel {
  import opened ByteStore

  /** Offset of `data[0]` inside an entry: a 32-bit size, two flags, padding up to 8. */
  const HEADER: nat := 8
  /** Offset of the waiting-for-tail flag inside an entry. */
  const FLAG: nat := 5
  const U32: nat := 0x1_0000_0000
  /** Up to this capacity the 32-bit sum in the wrap test cannot overflow, see WrapTestAtEntryIff. */
  const MAX_CAPACITY: nat := 0x8000_0000

  datatype Ring = Ring(head: nat, tail: nat, validHead: nat, validTail: nat, waiters: nat, mem: seq<byte>)

  // ---------- entry headers ----------

  function HeaderBytes(n: nat): (b: seq<byte>)
    requires n < U32
    ensures |b| == 6
  {
    [n % 0x100, n / 0x100 % 0x100, n / 0x1_0000 % 0x100, n / 0x100_0000, 0, 0]
  }

  function SizeAt(mem: seq<byte>, at: nat): nat
    requires at + 4 <= |mem|
  {
    (mem[at] as int) + 0x100 * (mem[at + 1] as int) + 0x1_0000 * (mem[at + 2] as int) +
      0x100_0000 * (mem[at + 3] as int)
  }

  function PutHeader(mem: seq<byte>, at: nat, n: nat): (r: seq<byte>)
    requires n < U32 && at + HEADER <= |mem|
    ensures |r| == |mem|
  {
    Splice(mem, at, HeaderBytes(n))
  }

  /** A header that was written reads back as the size that was written, with the waiting flag clear. */
  lemma HeaderRoundTrip(mem: seq<byte>, at: nat, n: nat)
    requires n < U32 && at + HEADER <= |mem|
    ensures SizeAt(PutHeader(mem, at, n), at) == n && PutHeader(mem, at, n)[at + FLAG] == 0
  {
    assert n == n % 0x100 + 0x100 * (n / 0x100 % 0x100) + 0x1_0000 * (n / 0x1_0000 % 0x100) +
      0x100_0000 * (n / 0x100_0000) by {
      assert n / 0x1_0000 == n / 0x100 / 0x100 && n / 0x100_0000 == n / 0x1_0000 / 0x100;
    }
  }

  lemma HeaderKept(mem: seq<byte>, at: nat, b: seq<byte>, p: nat)
    requires at + |b| <= |mem| && p + HEADER <= |mem|
    requires p + HEADER <= at || at + |b| <= p
    ensures SizeAt(Splice(mem, at, b), p) == SizeAt(mem, p) && Splice(mem, at, b)[p + FLAG] == mem[p + FLAG]
  {
  }

  // ---------- the critical sections ----------

  datatype Slot = At(offset: nat) | Wrapped | Full

  /** Where a new entry with `n` data bytes goes. */
  function Place(r: Ring, n: nat): Slot {
    var need := n + HEADER;
    if r.tail >= r.head then
      if r.tail + need <= |r.mem| then At(r.tail) else if r.head > need then Wrapped else Full
    else if r.head - r.tail > need then At(r.tail)
    else Full
  }

  /** Reserving: the entry's header is written, and the tail moves behind the entry. A wrapped entry also
      leaves a header at the old tail when there is room for one. */
  function Reserve(r: Ring, n: nat): (q: Ring)
    requires r.head <= |r.mem| < U32 && r.tail <= |r.mem| && !Place(r, n).Full?
  {
    match Place(r, n)
    case At(p) =>
      r.(mem := PutHeader(r.mem, p, n), tail := p + n + HEADER)
    case Wrapped =>
      var m := if |r.mem| - r.tail >= HEADER then PutHeader(r.mem, r.tail, n) else r.mem;
      r.(mem := PutHeader(m, 0, n), tail := n + HEADER)
    case Full => r
  }

  /** A producer copies some of its data behind the header of its entry, with no lock held. */
  function Copy(r: Ring, at: nat, done: nat, b: seq<byte>): (q: Ring)
    requires at + HEADER + done + |b| <= |r.mem|
  {
    r.(mem := Splice(r.mem, at + HEADER + done, b))
  }

  /** A producer finds that an earlier producer is still copying, and waits. */
  function BackOff(r: Ring, at: nat): (q: Ring)
    requires at + HEADER <= |r.mem|
  {
    r.(waiters := r.waiters + 1, mem := Splice(r.mem, at + FLAG, [1]))
  }

  /** The entry becomes visible to consumers. */
  function Publish(r: Ring, newTail: nat, waited: bool): (q: Ring)
    requires waited ==> r.waiters > 0
  {
    r.(validTail := newTail, waiters := if waited then r.waiters - 1 else r.waiters)
  }

  /** Whether the publisher wakes the thread that sleeps on the next entry. `stray` stands for the byte
      behind the queue area that is read when no header fits at the new tail. */
  function Wakes(r: Ring, stray: byte): bool {
    r.waiters != 0 && (if r.validTail + HEADER <= |r.mem| then r.mem[r.validTail + FLAG] else stray) != 0
  }

  /** The test for "the next entry is at the beginning", with its 32-bit sum. */
  predicate WrapTest(capacity: nat, base: nat, n: nat) {
    base + HEADER > capacity || (base + n) % U32 + HEADER > capacity
  }

  /** The size field the consumer reads at an offset; `stray` is what lies behind the queue area. */
  function SizeRead(r: Ring, at: nat, stray: nat): nat {
    if at + HEADER <= |r.mem| then SizeAt(r.mem, at) else stray
  }

  /** The entry a consumer gets and the new valid head. `base` is the offset used in the wrap test: the
      source uses the head. */
  function DequeueFrom(r: Ring, base: nat, stray: nat): (nat, nat)
    requires HEADER <= |r.mem|
  {
    var n := SizeRead(r, r.validHead, stray);
    if WrapTest(|r.mem|, base, n) then (0, SizeAt(r.mem, 0) + HEADER) else (r.validHead, r.validHead + n + HEADER)
  }

  function Dequeue(r: Ring, stray: nat): (nat, nat)
    requires HEADER <= |r.mem|
  {
    DequeueFrom(r, r.head, stray)
  }

  /** Whether a consumer that gives back `entry` must wait for an earlier entry to be given back. */
  predicate MustWait(r: Ring, entry: nat, stray: nat) {
    r.head != entry && !(entry == 0 && WrapTest(|r.mem|, r.head, SizeRead(r, r.head, stray)))
  }

  function Remove(r: Ring, entry: nat, stray: nat): (q: Ring)
    requires entry + HEADER <= |r.mem|
  {
    if WrapTest(|r.mem|, r.head, SizeRead(r, r.head, stray)) then r.(head := SizeAt(r.mem, entry) + HEADER)
    else r.(head := r.head + SizeAt(r.mem, entry) + HEADER)
  }

  /** The entry the wrap test finds at the head. */
  function EntryAtHead(r: Ring, stray: nat): nat {
    if WrapTest(|r.mem|, r.head, SizeRead(r, r.head, stray)) then 0 else r.head
  }

  /** The 32-bit sum in the wrap test is harmless exactly when it does not overflow (or no header fits). */
  lemma WrapTestExact(capacity: nat, base: nat, n: nat)
    requires base <= capacity < U32 && n + HEADER <= capacity
    ensures (WrapTest(capacity, base, n) <==> base + n + HEADER > capacity) <==>
      base + HEADER > capacity || base + n < U32
  {
    if base + n >= U32 {
      assert (base + n) % U32 == base + n - U32;
    }
  }

  // ---------- the log ----------

  /** `from` is the tail at reservation time; `at` is where the header is (`from`, or 0 after a wrap). */
  datatype Entry = Entry(from: nat, at: nat, payload: seq<byte>, copied: nat, waiting: bool)

  function End(e: Entry): nat {
    e.at + HEADER + |e.payload|
  }

  /** Entries before `taken` are in the hands of consumers, entries before `published` are visible, and
      `wrap` is the index of the entry that wrapped around (or the number of entries). */
  datatype Log = Log(live: seq<Entry>, taken: nat, published: nat, wrap: nat)

  /** The offset at which entry `k` was reserved, or the tail. */
  function Boundary(r: Ring, log: Log, k: nat): nat
    requires k <= |log.live|
  {
    if k < |log.live| then log.live[k].from else r.tail
  }

  /** How many producers of the entries from index `k` on are asleep. */
  function Waiting(live: seq<Entry>, k: nat): nat
    decreases |live| - k
  {
    if k >= |live| then 0 else (if live[k].waiting then 1 else 0) + Waiting(live, k + 1)
  }

  /** Every entry was reserved where the previous one ends. */
  ghost predicate Chained(live: seq<Entry>, i: nat)
    requires i < |live| - 1
  {
    live[i + 1].from == End(live[i])
  }

  /** Before the wrap an entry lies where it was reserved, at or above the head; after it, below the head. */
  ghost predicate Placed(head: nat, capacity: nat, w: nat, i: nat, e: Entry) {
    if i < w then e.at == e.from && head <= e.from && End(e) <= capacity
    else
      && e.at == (if i == w then 0 else e.from)
      && End(e) < head
      && (i == w ==> head <= e.from <= capacity && e.from + HEADER + |e.payload| > capacity)
  }

  /** On one side of the wrap, earlier entries lie before later ones. */
  ghost predicate Ordered(w: nat, i: nat, j: nat, e: Entry, f: Entry) {
    i < j && (j < w || w <= i) ==> End(e) <= f.at
  }

  ghost predicate Layout(r: Ring, log: Log) {
    var live, w, cap := log.live, log.wrap, |r.mem|;
    && cap < U32 && w <= |live| && r.head <= cap
    && (live == [] ==> r.head == r.tail)
    && (live != [] ==> live[0].from == r.head && End(live[|live| - 1]) == r.tail)
    && (w == |live| ==> r.head <= r.tail <= cap)
    && (forall i: nat {:trigger Chained(live, i)} :: i < |live| - 1 ==> Chained(live, i))
    && (forall i: nat {:trigger Placed(r.head, cap, w, i, live[i])} :: i < |live| ==>
      Placed(r.head, cap, w, i, live[i]))
    && (forall i: nat, j: nat {:trigger Ordered(w, i, j, live[i], live[j])} :: i < |live| && j < |live| ==>
      Ordered(w, i, j, live[i], live[j]))
  }

  /** The bytes of one entry: its size, its flag, and the data copied so far. */
  ghost predicate Stored(mem: seq<byte>, e: Entry) {
    && End(e) <= |mem| && e.copied <= |e.payload|
    && SizeAt(mem, e.at) == |e.payload|
    && mem[e.at + FLAG] == (if e.waiting then 1 else 0)
    && mem[e.at + HEADER..e.at + HEADER + e.copied] == e.payload[..e.copied]
  }

  /** The extra header left at the old tail when the entry at `wrap` went to the beginning. */
  ghost predicate Trampoline(mem: seq<byte>, e: Entry) {
    e.from + HEADER <= |mem| ==> SizeAt(mem, e.from) == |e.payload| && mem[e.from + FLAG] == 0
  }

  ghost predicate Bytes(r: Ring, log: Log) {
    && (forall i: nat {:trigger Stored(r.mem, log.live[i])} :: i < |log.live| ==> Stored(r.mem, log.live[i]))
    && (log.wrap < |log.live| ==> Trampoline(r.mem, log.live[log.wrap]))
  }

  ghost predicate Window(r: Ring, log: Log) {
    && log.taken <= log.published <= |log.live|
    && r.validHead == Boundary(r, log, log.taken)
    && r.validTail == Boundary(r, log, log.published)
    && (forall i :: 0 <= i < log.published ==> log.live[i].copied == |log.live[i].payload|)
    && r.waiters == Waiting(log.live, log.published)
  }

  ghost predicate Inv(r: Ring, log: Log) {
    Layout(r, log) && Bytes(r, log) && Window(r, log)
  }

  // ---------- geometry ----------

  /** Live entries occupy disjoint byte ranges inside the queue area. */
  lemma EntriesDisjoint(r: Ring, log: Log, i: nat, j: nat)
    requires Layout(r, log) && i < j < |log.live|
    ensures End(log.live[i]) <= |r.mem| && End(log.live[j]) <= |r.mem|
    ensures End(log.live[i]) <= log.live[j].at || End(log.live[j]) <= log.live[i].at
  {
    assert Placed(r.head, |r.mem|, log.wrap, i, log.live[i]) && Placed(r.head, |r.mem|, log.wrap, j, log.live[j]);
    assert Ordered(log.wrap, i, j, log.live[i], log.live[j]);
  }

  /** Head and tail coincide exactly when nothing is live. */
  lemma EmptyIffHeadIsTail(r: Ring, log: Log)
    requires Layout(r, log)
    ensures r.head == r.tail <==> log.live == []
  {
    if log.live != [] {
      var last := |log.live| - 1;
      assert Placed(r.head, |r.mem|, log.wrap, last, log.live[last]);
    }
  }

  /** A boundary beyond the wrap is below the head, all others are at or above it; on each side they ascend. */
  lemma BoundaryOrder(r: Ring, log: Log, i: nat, j: nat)
    requires Layout(r, log) && i < j <= |log.live|
    ensures Boundary(r, log, j) == End(log.live[j - 1])
    ensures (i <= log.wrap) == (r.head <= Boundary(r, log, i))
    ensures if i <= log.wrap < j then Boundary(r, log, j) < r.head else Boundary(r, log, i) < Boundary(r, log, j)
  {
    var live, w, cap := log.live, log.wrap, |r.mem|;
    assert j < |live| ==> Chained(live, j - 1);
    assert Placed(r.head, cap, w, i, live[i]) && Placed(r.head, cap, w, j - 1, live[j - 1]);
    if i > w {
      assert Chained(live, i - 1) && Placed(r.head, cap, w, i - 1, live[i - 1]);
    }
    assert Ordered(w, i, j - 1, live[i], live[j - 1]);
  }

  /** Different boundaries are different offsets, so comparing offsets is comparing positions. */
  lemma BoundariesDistinct(r: Ring, log: Log, i: nat, j: nat)
    requires Layout(r, log) && i <= |log.live| && j <= |log.live|
    ensures Boundary(r, log, i) == Boundary(r, log, j) <==> i == j
  {
    if i != j {
      var lo, hi := if i < j then i else j, if i < j then j else i;
      BoundaryOrder(r, log, lo, hi);
      if lo < log.wrap < hi { BoundaryOrder(r, log, lo, log.wrap); }
    }
  }

  /** The wrap test at the offset where entry `k` was reserved fails to tell whether the producer's wrap branch
      placed the entry at offset 0 exactly when it did and the 32-bit sum of offset and size overflows. */
  lemma WrapTestAtEntryIff(r: Ring, log: Log, k: nat, stray: nat)
    requires Layout(r, log) && Bytes(r, log) && k < |log.live|
    ensures var e := log.live[k];
      (WrapTest(|r.mem|, e.from, SizeRead(r, e.from, stray)) <==> k == log.wrap)
      <==> !(k == log.wrap && e.from + HEADER <= |r.mem| && e.from + |e.payload| >= U32)
  {
    var e := log.live[k];
    assert Stored(r.mem, e) && Placed(r.head, |r.mem|, log.wrap, k, e);
    if k != log.wrap || e.from + HEADER <= |r.mem| {
      WrapTestExact(|r.mem|, e.from, |e.payload|);
    }
  }

  /** In a queue of at most 2 GiB the test succeeds exactly for the wrapped entry, whatever lies behind the queue
      area. */
  lemma WrapTestAtEntry(r: Ring, log: Log, k: nat, stray: nat)
    requires Layout(r, log) && Bytes(r, log) && k < |log.live| && |r.mem| <= MAX_CAPACITY
    ensures WrapTest(|r.mem|, log.live[k].from, SizeRead(r, log.live[k].from, stray)) <==> k == log.wrap
  {
    var e := log.live[k];
    assert Stored(r.mem, e) && Placed(r.head, |r.mem|, log.wrap, k, e);
    WrapTestAtEntryIff(r, log, k, stray);
  }
}
