/**
 Circular doubly linked lists threaded through their elements. A list is a head entry and the ring of entries that
 starts at it; `Ring` gives a ring as the sequence of its entries.
 */
module IntrusiveList {
  import opened Sequences

  class ListEntry {
    var flink: ListEntry
    var blink: ListEntry
    /** The structure the entry is a part of; a list head is a part of none. */
    const record: Record?

    constructor (record: Record?)
      ensures flink == blink == this && this.record == record
    {
      this.record := record;
      flink, blink := this, this;
    }
  }

  /** A waiter's frame: an identifier and the service's answer. */
  class Record {
    const id: nat
    var responseReceived: bool
    var disableAccess: bool
    var logOperation: bool

    constructor (id: nat)
      ensures this.id == id && !responseReceived && !disableAccess && !logOperation
    {
      this.id := id;
      responseReceived, disableAccess, logOperation := false, false, false;
    }
  }

  function Nodes(c: seq<ListEntry>): set<ListEntry> {
    set e | e in c
  }

  function After(c: seq<ListEntry>, i: nat): ListEntry
    requires i < |c|
  {
    if i + 1 < |c| then c[i + 1] else c[0]
  }

  function Ahead(c: seq<ListEntry>, i: nat): ListEntry
    requires i < |c|
  {
    if i > 0 then c[i - 1] else c[|c| - 1]
  }

  ghost predicate LinkAt(c: seq<ListEntry>, i: nat)
    requires i < |c|
    reads Nodes(c)
  {
    c[i].flink == After(c, i) && c[i].blink == Ahead(c, i)
  }

  ghost predicate Ring(c: seq<ListEntry>)
    reads Nodes(c)
  {
    |c| > 0 && Distinct(c) && forall i: nat {:trigger LinkAt(c, i)} :: i < |c| ==> LinkAt(c, i)
  }

  /** The entries `s`, in this order, are the list with the given head. */
  ghost predicate Listed(head: ListEntry, s: seq<ListEntry>)
    reads Nodes([head] + s)
  {
    Ring([head] + s)
  }

  /** A ring whose links did not change is still one. */
  twostate lemma RingKept(c: seq<ListEntry>)
    requires old(Ring(c))
    requires forall e: ListEntry {:trigger e.flink} {:trigger e.blink} :: e in Nodes(c) ==>
      e.flink == old(e.flink) && e.blink == old(e.blink)
    ensures Ring(c)
  {
    forall i: nat {:trigger LinkAt(c, i)} | i < |c| ensures LinkAt(c, i) {
      assert old(LinkAt(c, i)) && c[i] in Nodes(c);
    }
  }

  lemma DistinctWithout(head: ListEntry, s: seq<ListEntry>, k: nat)
    requires Distinct([head] + s) && k < |s|
    ensures Distinct([head] + Without(s, k))
  {
    var c, d := [head] + s, [head] + Without(s, k);
    forall i: nat, j: nat {:trigger d[i], d[j]} | i < j < |d| ensures d[i] != d[j] {
      assert c[if i < k + 1 then i else i + 1] != c[if j < k + 1 then j else j + 1];
    }
  }

  lemma DistinctInsert(c: seq<ListEntry>, k: nat, e: ListEntry)
    requires Distinct(c) && e !in c && k <= |c|
    ensures Distinct(c[..k] + [e] + c[k..])
  {
    var d := c[..k] + [e] + c[k..];
    forall i: nat, j: nat {:trigger d[i], d[j]} | i < j < |d| ensures d[i] != d[j] {
      if i != k && j != k {
        assert c[if i < k then i else i - 1] != c[if j < k then j else j - 1];
      }
    }
  }

  lemma DistinctJoin(c: seq<ListEntry>, r: seq<ListEntry>)
    requires Distinct(c) && Distinct(r) && Nodes(c) !! Nodes(r)
    ensures Distinct(c + r)
  {
    var d := c + r;
    forall i: nat, j: nat {:trigger d[i], d[j]} | i < j < |d| ensures d[i] != d[j] {
      if j < |c| {
        assert c[i] != c[j];
      } else if |c| <= i {
        assert r[i - |c|] != r[j - |c|];
      } else {
        assert c[i] in Nodes(c) && r[j - |c|] in Nodes(r);
      }
    }
  }

  method InitializeListHead(head: ListEntry)
    modifies head
    ensures Listed(head, [])
  {
    head.flink, head.blink := head, head;
  }

  method IsListEmpty(head: ListEntry, ghost s: seq<ListEntry>) returns (empty: bool)
    requires Listed(head, s)
    ensures empty <==> s == []
  {
    ghost var c := [head] + s;
    assert LinkAt(c, 0);
    assert |c| > 1 ==> c[0] != c[1];
    empty := head.flink == head;
  }

  /** Takes the entry at `k` out of its list; the answer says that the list is empty now. */
  method RemoveEntryList(entry: ListEntry, ghost head: ListEntry, ghost s: seq<ListEntry>, ghost k: nat)
          returns (last: bool)
    requires Listed(head, s) && k < |s| && s[k] == entry
    modifies Nodes([head] + s)
    ensures Listed(head, Without(s, k)) && (last <==> |s| == 1)
    ensures entry.flink == old(entry.flink) && entry.blink == old(entry.blink)
  {
    ghost var c, d := [head] + s, [head] + Without(s, k);
    assert c[k + 1] == entry && LinkAt(c, k + 1);
    DistinctWithout(head, s, k);
    var blink, flink := entry.blink, entry.flink;
    blink.flink := flink;
    flink.blink := blink;
    last := flink == blink;
    forall i: nat {:trigger LinkAt(d, i)} | i < |d| ensures LinkAt(d, i) {
      assert old(LinkAt(c, if i < k + 1 then i else i + 1));
    }
  }

  method InsertTailList(head: ListEntry, entry: ListEntry, ghost s: seq<ListEntry>)
    requires Listed(head, s) && entry !in [head] + s
    modifies Nodes([head] + s), entry
    ensures Listed(head, s + [entry])
  {
    ghost var c, d := [head] + s, [head] + (s + [entry]);
    assert LinkAt(c, 0);
    DistinctInsert(c, |c|, entry);
    assert d == c[..|c|] + [entry] + c[|c|..];
    var blink := head.blink;
    entry.flink := head;
    entry.blink := blink;
    blink.flink := entry;
    head.blink := entry;
    forall i: nat {:trigger LinkAt(d, i)} | i < |d| ensures LinkAt(d, i) {
      if i < |c| { assert old(LinkAt(c, i)); }
    }
  }

  method InsertHeadList(head: ListEntry, entry: ListEntry, ghost s: seq<ListEntry>)
    requires Listed(head, s) && entry !in [head] + s
    modifies Nodes([head] + s), entry
    ensures Listed(head, [entry] + s)
  {
    ghost var c, d := [head] + s, [head] + ([entry] + s);
    assert LinkAt(c, 0);
    DistinctInsert(c, 1, entry);
    assert d == c[..1] + [entry] + c[1..];
    var flink := head.flink;
    entry.flink := flink;
    entry.blink := head;
    flink.blink := entry;
    head.flink := entry;
    forall i: nat {:trigger LinkAt(d, i)} | i < |d| ensures LinkAt(d, i) {
      if i != 1 { assert old(LinkAt(c, if i == 0 then 0 else i - 1)); }
    }
  }

  /** Takes the first entry out; on an empty list the answer is the head itself. */
  method RemoveHeadList(head: ListEntry, ghost s: seq<ListEntry>) returns (entry: ListEntry)
    requires Listed(head, s)
    modifies Nodes([head] + s)
    ensures if s == [] then entry == head && Listed(head, []) else entry == s[0] && Listed(head, s[1..])
  {
    ghost var c, d := [head] + s, if s == [] then [head] else [head] + s[1..];
    assert LinkAt(c, 0);
    if s != [] {
      assert LinkAt(c, 1) && Without(s, 0) == s[1..];
      DistinctWithout(head, s, 0);
    }
    entry := head.flink;
    var flink := entry.flink;
    head.flink := flink;
    flink.blink := head;
    forall i: nat {:trigger LinkAt(d, i)} | i < |d| ensures LinkAt(d, i) {
      assert old(LinkAt(c, if i == 0 then 0 else i + 1));
    }
    assert s == [] ==> d == [head] + s;
  }

  /** Takes the last entry out; on an empty list the answer is the head itself. */
  method RemoveTailList(head: ListEntry, ghost s: seq<ListEntry>) returns (entry: ListEntry)
    requires Listed(head, s)
    modifies Nodes([head] + s)
    ensures if s == [] then entry == head && Listed(head, []) else entry == s[|s| - 1] && Listed(head, s[..|s| - 1])
  {
    ghost var c, d := [head] + s, if s == [] then [head] else [head] + s[..|s| - 1];
    assert LinkAt(c, 0);
    assert LinkAt(c, |c| - 1);
    if s != [] {
      assert Without(s, |s| - 1) == s[..|s| - 1];
      DistinctWithout(head, s, |s| - 1);
    }
    entry := head.blink;
    var blink := entry.blink;
    head.blink := blink;
    blink.flink := head;
    forall i: nat {:trigger LinkAt(d, i)} | i < |d| ensures LinkAt(d, i) {
      assert old(LinkAt(c, i));
    }
    assert s == [] ==> d == [head] + s;
  }

  /** Appends a ring that has no head, given by its first entry. */
  method AppendTailList(head: ListEntry, first: ListEntry, ghost s: seq<ListEntry>, ghost r: seq<ListEntry>)
    requires Listed(head, s) && Ring(r) && r[0] == first && Nodes([head] + s) !! Nodes(r)
    modifies Nodes([head] + s), Nodes(r)
    ensures Listed(head, s + r)
  {
    ghost var c, d := [head] + s, [head] + (s + r);
    assert LinkAt(c, 0) && LinkAt(c, |c| - 1) && LinkAt(r, 0) && LinkAt(r, |r| - 1);
    assert c[|c| - 1] in Nodes(c) && r[|r| - 1] in Nodes(r) && r[0] in Nodes(r) && c[0] in Nodes(c);
    var end := head.blink;
    head.blink.flink := first;
    head.blink := first.blink;
    first.blink.flink := head;
    first.blink := end;
    DistinctJoin(c, r);
    assert d == c + r;
    forall i: nat {:trigger LinkAt(d, i)} | i < |d| ensures LinkAt(d, i) {
      if i < |c| { assert old(LinkAt(c, i)) && c[i] in Nodes(c); }
        else { assert old(LinkAt(r, i - |c|)) && r[i - |c|] in Nodes(r); }
    }
  }
}
