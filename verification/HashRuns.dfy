/** Runs of a hash table: any sequence of operations, under any heuristics, and iterations that remove what they
    visited. */
module HashRuns {
  import opened HashLinks
  import opened Sequences
  import opened HashSpec
  import opened HashTables
  import HashLimits

  predicate Stores(op: Operation) {
    op.Insert? || op.Replace? ==> op.data != 0
  }

  /** No data pointer is NULL before or after an operation that stores none. */
  lemma StaysNonNull(d: seq<Pair>, op: Operation)
    requires UniqueKeys(d) && NoNull(d) && Stores(op)
    ensures NoNull(Perform(d, op).0) && |Perform(d, op).0| <= |d| + 1
  {
    if op.Replace? || op.Remove? {
      if k: nat :| k < |d| && d[k].key == op.key {
        LookupAtIndex(d, k);
        if op.Remove? {
          assert forall i: nat {:trigger Without(d, k)[i]} :: i < |d| - 1 ==>
            Without(d, k)[i] == d[if i < k then i else i + 1];
        }
      } else {
        LookupAbsent(d, op.key);
      }
    }
  }

  method Step(t: HashTable, op: Operation) returns (answer: Answer)
    requires t.Valid() && t.bucketLimit == 0 && NoNull(t.Contents()) && Stores(op)
    requires t.items < 0x4000_0000 && (op.Rehash? ==> op.size <= 0x4000_0000)
    modifies t, t.buckets, t.counts, t.Repr
    ensures t.Valid() && t.bucketLimit == 0
    ensures (t.Contents(), answer) == Perform(old(t.Contents()), op)
    ensures t.buckets == old(t.buckets) || fresh(t.buckets)
    ensures t.counts == old(t.counts) || fresh(t.counts)
    ensures fresh(t.Repr - old(t.Repr))
  {
    KeptWhole(t);
    var evicted;
    ghost var grew;
    answer, evicted, grew := HashLimits.Step(t, op);
  }

  lemma KeptWhole(t: HashTable)
    requires t.Valid() && NoNull(t.Contents())
    ensures Kept(t.Contents()) == t.Contents() && UniqueKeys(t.Contents())
  {
    t.ContentsUnique();
    KeptIffNoNull(t.Contents());
  }

  /** Performs a list of operations and collects the answers: those of a map, by `RunsLikeAMap`. */
  method Run(t: HashTable, ops: seq<Operation>) returns (answers: seq<Answer>)
    requires t.Valid() && t.bucketLimit == 0 && NoNull(t.Contents()) && t.items + |ops| <= 0x4000_0000
    requires forall i: nat {:trigger ops[i]} :: i < |ops| ==>
      Stores(ops[i]) && (ops[i].Rehash? ==> ops[i].size <= 0x4000_0000)
    modifies t, t.buckets, t.counts, t.Repr
    ensures t.Valid()
    ensures (t.Contents(), answers) == RunOf(old(t.Contents()), ops)
    ensures (ToMap(t.Contents()), answers) == RunOnMap(ToMap(old(t.Contents())), ops)
  {
    t.ContentsUnique();
    RunsLikeAMap(t.Contents(), ops);
    answers := [];
    var i := 0;
    while i < |ops|
      invariant i <= |ops| && t.Valid() && t.bucketLimit == 0 && NoNull(t.Contents()) && t.items <= old(t.items) + i
      invariant (t.Contents(), answers) == RunOf(old(t.Contents()), ops[..i])
      invariant t.buckets == old(t.buckets) || fresh(t.buckets)
      invariant t.counts == old(t.counts) || fresh(t.counts)
      invariant fresh(t.Repr - old(t.Repr))
    {
      t.ContentsUnique();
      StaysNonNull(t.Contents(), ops[i]);
      var answer := Step(t, ops[i]);
      t.ContentsUnique();
      answers := answers + [answer];
      RunOfNext(old(t.Contents()), ops, i);
      i := i + 1;
    }
    assert ops[..|ops|] == ops;
  }

  // ---------- iterating while removing ----------

  function RemovedAll(d: seq<Pair>, keys: seq<Key>): seq<Pair> {
    if keys == [] then d else Removed(RemovedAll(d, keys[..|keys| - 1]), keys[|keys| - 1])
  }

  /** What is left of `d` after the removals that follow the first `n` visits. */
  ghost function After(d: seq<Pair>, plan: nat -> seq<Key>, n: nat): seq<Pair> {
    if n == 0 then d else RemovedAll(After(d, plan, n - 1), plan(n - 1))
  }

  /** The entry with `k` others behind it. */
  function FromEnd(s: seq<Entry>, k: nat): Entry? {
    if k < |s| then s[|s| - 1 - k] else null
  }

  /** The entries of the age list from the `n`-th on, counted when the walk began, are its end still. */
  ghost predicate EndsWith(ages: seq<Entry>, was: seq<Entry>, n: nat) {
    && n <= |was| && |was| - n <= |ages|
    && forall k: nat {:trigger FromEnd(was, k)} :: k < |was| - n ==> FromEnd(ages, k) == FromEnd(was, k)
  }

  /** None of the keys belongs to an entry from the `n`-th on. */
  ghost predicate Spares(keys: seq<Key>, was: seq<Entry>, n: nat) {
    forall i: nat {:trigger was[i]} :: n <= i < |was| ==> was[i].key !in keys
  }

  /** Removes keys none of which belongs to an entry from the `n`-th on. */
  method RemoveVisited(t: HashTable, keys: seq<Key>, ghost was: seq<Entry>, ghost n: nat)
    requires t.Valid() && EndsWith(t.ages, was, n)
    requires Spares(keys, was, n)
    modifies t`oldest, t`newest, t`ages, t`chains, t`Repr, t`freed, t`items
    modifies t.buckets, t.counts, t.Repr`next, t.Repr`prev, t.Repr`older, t.Repr`newer
    ensures t.Valid() && EndsWith(t.ages, was, n) && t.Contents() == RemovedAll(old(t.Contents()), keys)
    ensures t.Repr <= old(t.Repr)
  {
    var i := 0;
    while i < |keys|
      invariant i <= |keys| && t.Valid() && EndsWith(t.ages, was, n) &&
        t.Contents() == RemovedAll(old(t.Contents()), keys[..i])
      invariant t.Repr <= old(t.Repr)
    {
      ghost var before := t.ages;
      ghost var gone, at;
      var data;
      data, gone, at := t.Remove(keys[i]);
      assert keys[i] in keys;
      if gone != [] {
        StillEndsWith(before, at, was, n);
      }
      assert keys[..i + 1][..i] == keys[..i];
      i := i + 1;
    }
    assert keys[..|keys|] == keys;
  }

  lemma StillEndsWith(ages: seq<Entry>, at: nat, was: seq<Entry>, n: nat)
    requires EndsWith(ages, was, n) && at < |ages|
    requires forall i: nat {:trigger was[i]} :: n <= i < |was| ==> was[i].key != ages[at].key
    ensures EndsWith(Without(ages, at), was, n)
  {
    assert |ages| - at <= |was| - n ==> FromEnd(ages, |ages| - 1 - at) == FromEnd(was, |ages| - 1 - at);
    forall k: nat {:trigger FromEnd(was, k)} | k < |was| - n ensures FromEnd(Without(ages, at), k) == FromEnd(was, k) {
      assert FromEnd(ages, k) == FromEnd(was, k);
    }
  }

  lemma SameTail(ages: seq<Entry>, was: seq<Entry>, n: nat)
    requires EndsWith(ages, was, n)
    ensures var m := n + |ages| - |was|; At(ages, m) == At(was, n) && At(ages, m + 1) == At(was, n + 1)
  {
    assert n < |was| ==> FromEnd(ages, |was| - 1 - n) == FromEnd(was, |was| - 1 - n);
    assert n + 1 < |was| ==> FromEnd(ages, |was| - 2 - n) == FromEnd(was, |was| - 2 - n);
  }

  predicate Stored(d: seq<Pair>, n: nat) {
    n <= |d| && forall i: nat {:trigger d[i]} :: i < n ==> d[i].data != 0
  }

  ghost predicate Shows(d: seq<Pair>, was: seq<Entry>)
    reads Nodes(was)`data
  {
    |d| == |was| && forall i: nat {:trigger was[i]} :: i < |was| ==> d[i] == Pair(was[i].key, was[i].data)
  }

  lemma OneMoreStored(d: seq<Pair>, n: nat)
    requires n < |d| && Stored(d, n) && d[n].data != 0
    ensures Stored(d, n + 1) && d[..n + 1] == d[..n] + [d[n]]
  {
  }

  /** The state of a walk before its `n`-th visit; `was` and `d` are the age list and the pairs it began with. */
  ghost predicate Walking(t: HashTable, was: seq<Entry>, d: seq<Pair>, n: nat, it: Iterator, p: Data,
          visited: seq<Pair>)
    reads t, t.buckets, t.counts, t.Repr, Nodes(was)
  {
    && t.Valid() && n <= |was| && EndsWith(t.ages, was, n) && Shows(d, was)
    && it == Iterator(At(was, n), At(was, n + 1)) && p == (if n < |was| then was[n].data else 0)
    && Stored(d, n) && visited == d[..n]
  }

  /** One round of a walk: a visit, the removals that follow it, and the step to the next entry. */
  method Round(t: HashTable, it: Iterator, p: Data, visited: seq<Pair>, keys: seq<Key>, ghost was: seq<Entry>,
          ghost d: seq<Pair>, ghost n: nat)
    returns (next: Iterator, q: Data, more: seq<Pair>)
    requires Walking(t, was, d, n, it, p, visited) && p != 0
    requires Spares(keys, was, n + 1)
    modifies t`oldest, t`newest, t`ages, t`chains, t`Repr, t`freed, t`items
    modifies t.buckets, t.counts, t.Repr`next, t.Repr`prev, t.Repr`older, t.Repr`newer
    ensures Walking(t, was, d, n + 1, next, q, more) && t.Contents() == RemovedAll(old(t.Contents()), keys) &&
      t.Repr <= old(t.Repr)
  {
    assert d[n] == Pair(was[n].key, was[n].data);
    OneMoreStored(d, n);
    more := visited + [Pair(it.entry.key, p)];
    next, q := Advance(t, it, keys, was, n);
  }

  /** The removals after a visit, and the step to the next entry. */
  method Advance(t: HashTable, it: Iterator, keys: seq<Key>, ghost was: seq<Entry>, ghost n: nat)
          returns (next: Iterator, p: Data)
    requires t.Valid() && n < |was| && EndsWith(t.ages, was, n) && it.next == At(was, n + 1)
    requires Spares(keys, was, n + 1)
    modifies t`oldest, t`newest, t`ages, t`chains, t`Repr, t`freed, t`items
    modifies t.buckets, t.counts, t.Repr`next, t.Repr`prev, t.Repr`older, t.Repr`newer
    ensures t.Valid() && EndsWith(t.ages, was, n + 1) && t.Contents() == RemovedAll(old(t.Contents()), keys)
    ensures t.Repr <= old(t.Repr)
    ensures forall i: nat {:trigger was[i]} :: i < |was| ==> was[i].data == old(was[i].data)
    ensures next == Iterator(At(was, n + 1), At(was, n + 2)) && p == if n + 1 < |was| then was[n + 1].data else 0
  {
    assert EndsWith(t.ages, was, n + 1);
    RemoveVisited(t, keys, was, n + 1);
    ghost var m := n + 1 + |t.ages| - |was|;
    SameTail(t.ages, was, n + 1);
    next, p := t.Next(it, m);
  }

  method Begin(t: HashTable) returns (it: Iterator, p: Data)
    requires t.Valid()
    ensures Walking(t, t.ages, t.Contents(), 0, it, p, [])
  {
    it, p := t.First();
  }

  /** A walk that has ended visited what stands before the first NULL data pointer. */
  lemma WalkEnds(t: HashTable, was: seq<Entry>, d: seq<Pair>, n: nat, it: Iterator, p: Data, visited: seq<Pair>)
    requires Walking(t, was, d, n, it, p, visited) && p == 0
    ensures visited == Kept(d) && |visited| == n
  {
    assert n < |was| ==> d[n] == Pair(was[n].key, was[n].data);
    KeptUpTo(d, n);
  }

  /**
   Walks a table; after the `n`-th visit the caller removes the keys `plan(n)`, none of which belongs to an entry
   that is still to be visited. Every original entry is visited once, in order of insertion, up to a NULL data pointer.
   */
  method Walk(t: HashTable, plan: nat -> seq<Key>) returns (visited: seq<Pair>)
    requires t.Valid()
    requires forall n: nat {:trigger plan(n)} :: Spares(plan(n), t.ages, n + 1)
    modifies t`oldest, t`newest, t`ages, t`chains, t`Repr, t`freed, t`items
    modifies t.buckets, t.counts, t.Repr`next, t.Repr`prev, t.Repr`older, t.Repr`newer
    ensures t.Valid()
    ensures visited == Kept(old(t.Contents()))
    ensures t.Contents() == After(old(t.Contents()), plan, |visited|)
  {
    ghost var was, d := t.ages, t.Contents();
    visited := [];
    var it, p := Begin(t);
    var n := 0;
    ghost var now := d;
    while p != 0
      invariant Walking(t, was, d, n, it, p, visited) && t.Contents() == now == After(d, plan, n)
      invariant t.Repr <= old(t.Repr)
      decreases |was| - n
    {
      it, p, visited := Round(t, it, p, visited, plan(n), was, d, n);
      now, n := RemovedAll(now, plan(n)), n + 1;
    }
    WalkEnds(t, was, d, n, it, p, visited);
  }
}
