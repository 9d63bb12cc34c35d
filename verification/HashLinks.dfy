/**
 Hash entries and the two doubly linked lists every entry lies on: the chain of its bucket (`next`, `prev`) and
 the list of all entries by age (`older`, `newer`). Each list is described by the sequence of its entries.
 */
module HashLinks {
  import opened ByteStore
  import opened Sequences

  type Key = seq<byte>
  /** A data pointer; 0 is NULL. */
  type Data = nat

  class Entry {
    const key: Key
    var data: Data
    var next: Entry?
    var prev: Entry?
    var older: Entry?
    var newer: Entry?

    constructor (key: Key, data: Data)
      ensures this.key == key && this.data == data && next == prev == older == newer == null
    {
      this.key, this.data := key, data;
      next, prev, older, newer := null, null, null, null;
    }
  }

  function At(s: seq<Entry>, i: int): Entry? {
    if 0 <= i < |s| then s[i] else null
  }

  function Nodes(s: seq<Entry>): set<Entry> {
    set e | e in s
  }

  ghost predicate ChainAt(s: seq<Entry>, i: nat)
    requires i < |s|
    reads Nodes(s)`next, Nodes(s)`prev
  {
    s[i].prev == At(s, i - 1) && s[i].next == At(s, i + 1)
  }

  /** `s` is a chain. */
  ghost predicate Chained(s: seq<Entry>)
    reads Nodes(s)`next, Nodes(s)`prev
  {
    forall i: nat {:trigger ChainAt(s, i)} :: i < |s| ==> ChainAt(s, i)
  }

  ghost predicate AgeAt(s: seq<Entry>, i: nat)
    requires i < |s|
    reads Nodes(s)`older, Nodes(s)`newer
  {
    s[i].older == At(s, i - 1) && s[i].newer == At(s, i + 1)
  }

  /** `s` is the age list, oldest first. */
  ghost predicate Aged(s: seq<Entry>)
    reads Nodes(s)`older, Nodes(s)`newer
  {
    forall i: nat {:trigger AgeAt(s, i)} :: i < |s| ==> AgeAt(s, i)
  }

  lemma NodesToFront(s: seq<Entry>, k: nat)
    requires k < |s|
    ensures Nodes([s[k]] + Without(s, k)) == Nodes(s)
  {
    var t := [s[k]] + Without(s, k);
    forall e: Entry | e in Nodes(s) ensures e in Nodes(t) {
      var i: nat :| i < |s| && s[i] == e;
      assert t[if i == k then 0 else if i < k then i + 1 else i] == e;
    }
    forall e: Entry | e in Nodes(t) ensures e in Nodes(s) {
      var i: nat :| i < |t| && t[i] == e;
      assert s[if i == 0 then k else if i - 1 < k then i - 1 else i] == e;
    }
  }

  lemma NotInWithout(s: seq<Entry>, k: nat)
    requires Distinct(s) && k < |s|
    ensures s[k] !in Without(s, k) && Nodes(Without(s, k)) == Nodes(s) - {s[k]}
  {
    var t := Without(s, k);
    forall i: nat {:trigger t[i]} | i < |t| ensures t[i] != s[k] {
      assert t[i] == s[if i < k then i else i + 1];
    }
    forall e: Entry | e in Nodes(s) && e != s[k] ensures e in Nodes(t) {
      var i: nat :| i < |s| && s[i] == e;
      assert t[if i < k then i else i - 1] == e;
    }
  }

  /** The entry at `k` moved one place up. */
  function Swapped(s: seq<Entry>, k: nat): seq<Entry>
    requires 0 < k < |s|
  {
    s[k - 1 := s[k]][k := s[k - 1]]
  }

  lemma NodesSwapped(s: seq<Entry>, k: nat)
    requires 0 < k < |s|
    ensures Nodes(Swapped(s, k)) == Nodes(s)
  {
    var t := Swapped(s, k);
    forall e: Entry | e in Nodes(s) ensures e in Nodes(t) {
      var i: nat :| i < |s| && s[i] == e;
      assert t[if i == k then k - 1 else if i == k - 1 then k else i] == e;
    }
    forall e: Entry | e in Nodes(t) ensures e in Nodes(s) {
      var i: nat :| i < |t| && t[i] == e;
      assert s[if i == k then k - 1 else if i == k - 1 then k else i] == e;
    }
  }

  /** Takes the entry at `k` out of its chain; the caller updates the bucket when the entry was first. */
  method UnlinkChain(e: Entry, ghost s: seq<Entry>, ghost k: nat)
    requires Distinct(s) && Chained(s) && k < |s| && s[k] == e
    modifies Nodes(s)`next, Nodes(s)`prev
    ensures Chained(Without(s, k)) && Distinct(Without(s, k))
    ensures e.next == old(e.next) == At(s, k + 1) && e.prev == old(e.prev) == At(s, k - 1)
  {
    assert ChainAt(s, k);
    if e.prev != null {
      e.prev.next := e.next;
    }
    if e.next != null {
      e.next.prev := e.prev;
    }
    ghost var t := Without(s, k);
    forall i: nat {:trigger ChainAt(t, i)} | i < |t| ensures ChainAt(t, i) {
      assert old(ChainAt(s, if i < k then i else i + 1));
    }
  }

  /** Takes the entry at `k` out of the age list; the caller updates the ends. */
  method UnlinkAge(e: Entry, ghost s: seq<Entry>, ghost k: nat)
    requires Distinct(s) && Aged(s) && k < |s| && s[k] == e
    modifies Nodes(s)`older, Nodes(s)`newer
    ensures Aged(Without(s, k)) && Distinct(Without(s, k))
    ensures e.older == old(e.older) == At(s, k - 1) && e.newer == old(e.newer) == At(s, k + 1)
  {
    assert AgeAt(s, k);
    if e.older != null {
      e.older.newer := e.newer;
    }
    if e.newer != null {
      e.newer.older := e.older;
    }
    ghost var t := Without(s, k);
    forall i: nat {:trigger AgeAt(t, i)} | i < |t| ensures AgeAt(t, i) {
      assert old(AgeAt(s, if i < k then i else i + 1));
    }
  }

  /** Puts an entry that is on no chain in front of the chain that starts at `first`. */
  method PushChain(e: Entry, first: Entry?, ghost s: seq<Entry>)
    requires Distinct(s) && Chained(s) && e !in s && first == At(s, 0)
    modifies Nodes(s)`prev, e`next, e`prev
    ensures Chained([e] + s) && Distinct([e] + s)
  {
    e.next := first;
    e.prev := null;
    if first != null {
      first.prev := e;
    }
    ghost var t := [e] + s;
    forall i: nat {:trigger ChainAt(t, i)} | i < |t| ensures ChainAt(t, i) {
      if i > 0 { assert old(ChainAt(s, i - 1)); }
    }
  }

  /** Moves the entry at `k`, which is not first, to the front of its chain. */
  method ToFront(e: Entry, first: Entry, ghost s: seq<Entry>, ghost k: nat)
    requires Distinct(s) && Chained(s) && 0 < k < |s| && s[k] == e && s[0] == first
    modifies Nodes(s)`next, Nodes(s)`prev
    ensures Chained([e] + Without(s, k)) && Distinct([e] + Without(s, k)) && Nodes([e] + Without(s, k)) == Nodes(s)
  {
    NotInWithout(s, k);
    NodesToFront(s, k);
    UnlinkChain(e, s, k);
    PushChain(e, first, Without(s, k));
  }

  /** Appends an entry that is not on the age list behind `newest`. */
  method AppendAge(e: Entry, newest: Entry?, ghost s: seq<Entry>)
    requires Distinct(s) && Aged(s) && e !in s && newest == At(s, |s| - 1) && e.newer == null
    modifies Nodes(s)`newer, e`older
    ensures Aged(s + [e]) && Distinct(s + [e])
  {
    e.older := newest;
    if newest != null {
      newest.newer := e;
    }
    ghost var t := s + [e];
    forall i: nat {:trigger AgeAt(t, i)} | i < |t| ensures AgeAt(t, i) {
      if i < |s| { assert old(AgeAt(s, i)); }
    }
  }

  /** Moves the entry at `k` one place up its chain; `first` tells whether it is first now. */
  method SwapUp(e: Entry, ghost s: seq<Entry>, ghost k: nat) returns (first: bool)
    requires Distinct(s) && Chained(s) && 0 < k < |s| && s[k] == e
    modifies Nodes(s)`next, Nodes(s)`prev
    ensures Chained(Swapped(s, k)) && Distinct(Swapped(s, k)) && Nodes(Swapped(s, k)) == Nodes(s)
    ensures first <==> k == 1
  {
    assert ChainAt(s, k) && ChainAt(s, k - 1);
    var x := e.prev;
    var a, b := x.prev, e.next;
    first := a == null;
    if a != null {
      a.next := e;
    }
    if b != null {
      b.prev := x;
    }
    x.next := e.next;
    x.prev := e;
    e.next := x;
    e.prev := a;
    NodesSwapped(s, k);
    ghost var t := Swapped(s, k);
    forall i: nat {:trigger ChainAt(t, i)} | i < |t| ensures ChainAt(t, i) {
      assert old(ChainAt(s, i));
    }
  }
}
