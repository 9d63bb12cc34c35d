/**
 Runs of a table with a limit on its buckets: any operations, automatic doubling, NULL data pointers, evictions. Each
 eviction takes a pair of the new key's bucket, and no bucket exceeds the limit unless a rehash makes the table smaller.
 */
module HashLimits {
  import opened HashLinks
  import opened HashSpec
  import opened HashTables
  import opened Options

  /** What an operation does to the dictionary when the table grew first (`grew`) and a pair was evicted. */
  ghost function PerformBounded(d: seq<Pair>, op: Operation, grew: bool, evicted: Option<Pair>): (seq<Pair>, Answer) {
    if op.Insert? && op.memory && !HasKey(d, op.key)
      then (Added(Left(d, grew), evicted, Pair(op.key, op.data)), Inserted(Ok))
    else if op.Rehash? then (Kept(d), Done)
    else Perform(d, op)
  }

  /** What a rehash, if there is one, leaves. */
  function Left(d: seq<Pair>, grew: bool): seq<Pair> {
    if grew then Kept(d) else d
  }

  /** The operation puts a new pair in. */
  ghost predicate Inserts(d: seq<Pair>, op: Operation) {
    op.Insert? && op.memory && !HasKey(d, op.key)
  }

  /** An eviction happens exactly when a new key comes to a bucket that holds as many keys as the limit allows, of the
      table as a rehash, if there is one, leaves it; it takes another pair of that bucket. `n` is the number of buckets
      then. */
  ghost predicate EvictsPair(hash: Key -> nat, limit: nat, d: seq<Pair>, op: Operation, grew: bool, n: nat,
          evicted: Option<Pair>)
  {
    && (evicted.Some? <==> Inserts(d, op) && n > 0 && IsCrowded(hash, Left(d, grew), n, limit, op.key))
    && (evicted.Some? ==>
          && evicted.value.key != op.key && hash(evicted.value.key) % n == hash(op.key) % n
          && Lookup(Left(d, grew), evicted.value.key) == Some(evicted.value.data))
  }

  method InsertStep(t: HashTable, op: Operation) returns (answer: Answer, evicted: Option<Pair>, ghost grew: bool)
    requires t.Valid() && t.items < 0x4000_0000 && op.Insert?
    modifies t, t.buckets, t.counts, t.Repr
    ensures t.Valid() && t.bucketLimit == old(t.bucketLimit)
    ensures (t.Contents(), answer) == PerformBounded(old(t.Contents()), op, grew, evicted)
    ensures EvictsPair(t.hash, t.bucketLimit, old(t.Contents()), op, grew, t.size, evicted)
    ensures old(t.WithinLimit()) ==> t.WithinLimit()
    ensures grew <==> answer == Inserted(Ok) && old(t.automaticRehash) && |old(t.Contents())| > 2 * old(t.size)
    ensures old(t.Sparse()) ==> t.Sparse()
    ensures t.size == if grew then 2 * old(t.size) else old(t.size)
    ensures t.buckets == old(t.buckets) || fresh(t.buckets)
    ensures t.counts == old(t.counts) || fresh(t.counts)
    ensures fresh(t.Repr - old(t.Repr))
  {
    ghost var chain, d, grows := [], t.Contents(), t.Grows();
    var status;
    status, evicted, chain := t.Insert(op.key, op.data, op.memory);
    answer := Inserted(status);
    grew := status == Ok && grows;
    if evicted.Some? { PresentIsOther(d, grew, op.key, evicted.value.key); }
  }

  method Step(t: HashTable, op: Operation) returns (answer: Answer, evicted: Option<Pair>, ghost grew: bool)
    requires t.Valid() && t.items < 0x4000_0000 && (op.Rehash? ==> op.size <= 0x4000_0000)
    modifies t, t.buckets, t.counts, t.Repr
    ensures t.Valid() && t.bucketLimit == old(t.bucketLimit)
    ensures (t.Contents(), answer) == PerformBounded(old(t.Contents()), op, grew, evicted)
    ensures EvictsPair(t.hash, t.bucketLimit, old(t.Contents()), op, grew, t.size, evicted)
    ensures old(t.WithinLimit()) && (op.Rehash? ==> old(t.size) <= t.size) ==> t.WithinLimit()
    ensures !op.Rehash? ==> t.size == if grew then 2 * old(t.size) else old(t.size)
    ensures grew <==> answer == Inserted(Ok) && old(t.automaticRehash) && |old(t.Contents())| > 2 * old(t.size)
    ensures old(t.Sparse()) && (op.Rehash? ==> old(t.size) <= t.size) && op != SetRehash(true) ==> t.Sparse()
    ensures t.buckets == old(t.buckets) || fresh(t.buckets)
    ensures t.counts == old(t.counts) || fresh(t.counts)
    ensures fresh(t.Repr - old(t.Repr))
  {
    if op.Insert? {
      answer, evicted, grew := InsertStep(t, op);
    } else if op.Rehash? {
      KeptPrefix(t.Contents());
      ghost var released := t.Rehash(op.size);
      answer, evicted, grew := Done, None, false;
    } else {
      answer := QuietStep(t, op);
      evicted, grew := None, false;
    }
  }

  method QuietStep(t: HashTable, op: Operation) returns (answer: Answer)
    requires t.Valid() && !op.Insert? && !op.Rehash?
    modifies t`chains, t`oldest, t`newest, t`ages, t`Repr, t`freed, t`items, t`heuristics, t`automaticRehash, t.buckets,
      t.counts, t.Repr
    ensures t.Valid() && (t.Contents(), answer) == Perform(old(t.Contents()), op)
    ensures (old(t.WithinLimit()) ==> t.WithinLimit()) && t.Repr <= old(t.Repr) && !answer.Inserted?
    ensures old(t.Sparse()) && op != SetRehash(true) ==> t.Sparse()
  {
    if op.SetHeuristics? {
      t.SetHeuristics(op.heuristics);
      answer := Done;
    } else if op.SetRehash? {
      t.SetRehash(op.automatic);
      answer := Done;
    } else {
      answer := KeyStep(t, op);
    }
  }

  method KeyStep(t: HashTable, op: Operation) returns (answer: Answer)
    requires t.Valid() && (op.Get? || op.Replace? || op.Remove?)
    modifies t`chains, t`oldest, t`newest, t`ages, t`Repr, t`freed, t`items, t.buckets, t.counts, t.Repr
    ensures t.Valid() && (t.Contents(), answer) == Perform(old(t.Contents()), op)
    ensures (old(t.WithinLimit()) ==> t.WithinLimit()) && t.Repr <= old(t.Repr) && !answer.Inserted?
    ensures t.items <= old(t.items)
  {
    FewerPairs(t.Contents(), op);
    match op
    case Get(key) =>
      var data := t.Get(key);
      answer := Found(data);
    case Replace(key, data) =>
      var was := t.Replace(key, data);
      answer := Found(was);
    case Remove(key) =>
      ghost var gone, at;
      var data;
      data, gone, at := t.Remove(key);
      answer := Found(data);
  }

  /** No operation but an insertion makes the table larger. */
  lemma FewerPairs(d: seq<Pair>, op: Operation)
    requires !op.Insert?
    ensures |Perform(d, op).0| <= |d|
  {
    KeptPrefix(d);
    if op.Remove? { RemovedShorter(d, op.key); }
    if op.Replace? { ReplacedAsLong(d, op.key, op.data); }
  }

  lemma PresentIsOther(d: seq<Pair>, grew: bool, key: Key, other: Key)
    requires !HasKey(d, key) && Lookup(Left(d, grew), other).Some?
    ensures other != key
  {
    AbsentFromKept(d, key);
    AbsentUnchanged(Left(d, grew), key);
  }

  // ---------- runs ----------

  /** A run, given at which steps the table grew and what was evicted. */
  ghost function RunBoundedOf(d: seq<Pair>, ops: seq<Operation>, grows: seq<bool>,
          evictions: seq<Option<Pair>>): (seq<Pair>, seq<Answer>)
    requires |grows| == |ops| == |evictions|
  {
    if ops == [] then (d, []) else
      var n := |ops| - 1;
      var (before, answers) := RunBoundedOf(d, ops[..n], grows[..n], evictions[..n]);
      var (after, answer) := PerformBounded(before, ops[n], grows[n], evictions[n]);
      (after, answers + [answer])
  }

  /** The evictions of the run are right at the moment they happen; `sizes` are the numbers of buckets before each step
      and at the end. */
  ghost predicate EvictsPairs(hash: Key -> nat, limit: nat, d: seq<Pair>, ops: seq<Operation>, grows: seq<bool>,
          evictions: seq<Option<Pair>>, sizes: seq<nat>)
    requires |grows| == |ops| == |evictions| && |sizes| == |ops| + 1
  {
    ops == [] ||
    var n := |ops| - 1;
    && EvictsPairs(hash, limit, d, ops[..n], grows[..n], evictions[..n], sizes[..n + 1])
    && EvictsPair(hash, limit, RunBoundedOf(d, ops[..n], grows[..n], evictions[..n]).0, ops[n], grows[n], sizes[n + 1],
      evictions[n])
  }

  /** No rehash of the run made the table smaller. */
  ghost predicate NeverShrinks(ops: seq<Operation>, sizes: seq<nat>)
    requires |sizes| == |ops| + 1
  {
    forall i: nat {:trigger ops[i]} :: i < |ops| && ops[i].Rehash? ==> sizes[i] <= sizes[i + 1]
  }

  /** No operation of the run turns automatic rehash on. */
  predicate NeverEnables(ops: seq<Operation>) {
    SetRehash(true) !in ops
  }

  /** The run of `ops` from `d` in a table of `n` buckets is as these sequences tell and ends with `e` in `m`
      buckets. */
  ghost predicate Ran(hash: Key -> nat, limit: nat, d: seq<Pair>, n: nat, ops: seq<Operation>, answers: seq<Answer>,
          grows: seq<bool>,
          evictions: seq<Option<Pair>>,
                      sizes: seq<nat>, e: seq<Pair>, m: nat)
  {
    && |grows| == |ops| == |evictions| && |sizes| == |ops| + 1 && sizes[0] == n && sizes[|ops|] == m
    && (e, answers) == RunBoundedOf(d, ops, grows, evictions)
    && EvictsPairs(hash, limit, d, ops, grows, evictions, sizes)
    && forall i: nat {:trigger ops[i]} :: i < |ops| && !ops[i].Rehash? ==> sizes[i + 1] == if grows[i] then 2 * sizes[i]
      else sizes[i]
  }

  lemma RanMore(hash: Key -> nat, limit: nat, d: seq<Pair>, n: nat, ops: seq<Operation>, answers: seq<Answer>,
          grows: seq<bool>,
          evictions: seq<Option<Pair>>,
                sizes: seq<nat>, e: seq<Pair>, m: nat, op: Operation, answer: Answer, grew: bool, evicted: Option<Pair>,
                  f: seq<Pair>, k: nat)
    requires Ran(hash, limit, d, n, ops, answers, grows, evictions, sizes, e, m)
    requires (f, answer) == PerformBounded(e, op, grew, evicted)
    requires EvictsPair(hash, limit, e, op, grew, k, evicted)
    requires !op.Rehash? ==> k == if grew then 2 * m else m
    ensures Ran(hash, limit, d, n, ops + [op], answers + [answer], grows + [grew], evictions + [evicted], sizes + [k],
      f, k)
    ensures NeverShrinks(ops + [op], sizes + [k]) <==> NeverShrinks(ops, sizes) && (op.Rehash? ==> m <= k)
    ensures NeverEnables(ops + [op]) <==> NeverEnables(ops) && op != SetRehash(true)
  {
    var a, z, g := ops + [op], sizes + [k], grows + [grew];
    assert a[..|ops|] == ops && g[..|ops|] == grows && (evictions + [evicted])[..|ops|] == evictions && a[|ops|] == op;
    assert z[..|ops| + 1] == sizes;
    forall i: nat {:trigger ops[i]} | i < |ops| ensures a[i] == ops[i] && z[i] == sizes[i] &&
      z[i + 1] == sizes[i + 1] && g[i] == grows[i] {
    }
  }

  lemma {:induction false} ReplacedAsLong(d: seq<Pair>, key: Key, data: Data)
    ensures |Replaced(d, key, data)| == |d|
  {
    if d != [] { ReplacedAsLong(d[1..], key, data); }
  }

  lemma OneMoreAtMost(d: seq<Pair>, op: Operation, grew: bool, evicted: Option<Pair>)
    ensures |PerformBounded(d, op, grew, evicted).0| <= |d| + 1
  {
    KeptPrefix(d);
    if evicted.Some? { RemovedShorter(Left(d, grew), evicted.value.key); }
    if op.Remove? { RemovedShorter(d, op.key); }
    if op.Replace? { ReplacedAsLong(d, op.key, op.data); }
  }

  /**
   Any run on a table with any limit: the contents and the answers are those of the dictionary, every evicted pair
   was in the table and in the bucket of the key that displaced it, and a limit that holds at the start holds
   throughout, whatever the heuristics, the removals and the doublings, unless a rehash makes the table smaller. With
   automatic rehash on from the start the table stays sparse on the same condition.
   */
  method RunBounded(t: HashTable, ops: seq<Operation>)
    returns (answers: seq<Answer>, evictions: seq<Option<Pair>>, ghost grows: seq<bool>, ghost sizes: seq<nat>)
    requires t.Valid() && t.items + |ops| <= 0x4000_0000
    requires forall i: nat {:trigger ops[i]} :: i < |ops| && ops[i].Rehash? ==> ops[i].size <= 0x4000_0000
    modifies t, t.buckets, t.counts, t.Repr
    ensures t.Valid() && t.bucketLimit == old(t.bucketLimit)
    ensures Ran(t.hash, t.bucketLimit, old(t.Contents()), old(t.size), ops, answers, grows, evictions, sizes,
      t.Contents(), t.size)
    ensures old(t.WithinLimit()) && NeverShrinks(ops, sizes) ==> t.WithinLimit()
    ensures old(t.Sparse()) && NeverShrinks(ops, sizes) && NeverEnables(ops) ==> t.Sparse()
  {
    answers, evictions, grows, sizes := [], [], [], [t.size];
    var i := 0;
    while i < |ops|
      invariant i <= |ops| && t.Valid() && t.bucketLimit == old(t.bucketLimit) && t.items <= old(t.items) + i
      invariant RanSoFar(t, old(t.Contents()), old(t.size), ops[..i], answers, grows, evictions, sizes,
        old(t.WithinLimit()), old(t.Sparse()))
      invariant t.buckets == old(t.buckets) || fresh(t.buckets)
      invariant t.counts == old(t.counts) || fresh(t.counts)
      invariant fresh(t.Repr - old(t.Repr))
    {
      assert ops[..i + 1] == ops[..i] + [ops[i]];
      answers, evictions, grows, sizes := RunOne(t, old(t.Contents()), old(t.size), ops[..i], answers, evictions, grows,
        sizes, old(t.WithinLimit()), old(t.Sparse()), ops[i]);
      i := i + 1;
    }
    assert ops[..|ops|] == ops;
  }

  /** What a run has done so far; `within` and `sparse` tell whether the limit held and the table was sparse before. */
  ghost predicate RanSoFar(t: HashTable, d: seq<Pair>, n: nat, ops: seq<Operation>, answers: seq<Answer>,
          grows: seq<bool>, evictions: seq<Option<Pair>>, sizes: seq<nat>, within: bool, sparse: bool)
    reads t, Nodes(t.ages)
  {
    && Ran(t.hash, t.bucketLimit, d, n, ops, answers, grows, evictions, sizes, t.Contents(), t.size)
    && (within && NeverShrinks(ops, sizes) ==> t.WithinLimit())
    && (sparse && NeverShrinks(ops, sizes) && NeverEnables(ops) ==> t.Sparse())
  }

  /** One more operation of a run. */
  method RunOne(t: HashTable, ghost d: seq<Pair>, ghost n: nat, ghost ops: seq<Operation>, answers: seq<Answer>,
          evictions: seq<Option<Pair>>, ghost grows: seq<bool>, ghost sizes: seq<nat>, ghost within: bool,
          ghost sparse: bool, op: Operation)
    returns (answers': seq<Answer>, evictions': seq<Option<Pair>>, ghost grows': seq<bool>, ghost sizes': seq<nat>)
    requires t.Valid() && t.items < 0x4000_0000 && (op.Rehash? ==> op.size <= 0x4000_0000)
    requires RanSoFar(t, d, n, ops, answers, grows, evictions, sizes, within, sparse)
    modifies t, t.buckets, t.counts, t.Repr
    ensures t.Valid() && t.bucketLimit == old(t.bucketLimit) && t.items <= old(t.items) + 1
    ensures RanSoFar(t, d, n, ops + [op], answers', grows', evictions', sizes', within, sparse)
    ensures t.buckets == old(t.buckets) || fresh(t.buckets)
    ensures t.counts == old(t.counts) || fresh(t.counts)
    ensures fresh(t.Repr - old(t.Repr))
  {
    ghost var e, m := t.Contents(), t.size;
    var answer, evicted;
    ghost var grew;
    answer, evicted, grew := Step(t, op);
    OneMoreAtMost(e, op, grew, evicted);
    RanMore(t.hash, t.bucketLimit, d, n, ops, answers, grows, evictions, sizes, e, m, op, answer, grew, evicted,
      t.Contents(), t.size);
    answers', evictions', grows', sizes' := answers + [answer], evictions + [evicted], grows + [grew], sizes + [t.size];
  }

  /** On the map: the evicted key goes, the new one comes. */
  lemma AddedIsMap(d: seq<Pair>, evicted: Option<Pair>, p: Pair)
    requires UniqueKeys(d) && !HasKey(d, p.key)
    ensures UniqueKeys(Added(d, evicted, p))
    ensures ToMap(Added(d, evicted, p)) == (if evicted.Some? then ToMap(d) - {evicted.value.key}
      else ToMap(d))[p.key := p.data]
  {
    MapKeys(d, p.key);
    var e := if evicted.Some? then Removed(d, evicted.value.key) else d;
    if evicted.Some? { OperationsAreMapOperations(d, evicted.value.key, 0); }
    OperationsAreMapOperations(e, p.key, p.data);
  }

  /** A rehash to fewer buckets can exceed the limit, even in a run in which nothing else could. */
  method ShrinkingBreaksLimit(hash: Key -> nat, a: Key, b: Key) returns (t: HashTable)
    requires hash(a) % 2 == 0 && hash(b) % 2 == 1
    ensures t.Valid() && t.bucketLimit == 1 && t.size == 1 && t.Contents() == [Pair(a, 1), Pair(b, 1)] &&
      !t.WithinLimit()
  {
    t := TwoInTwoBuckets(hash, a, b);
    ghost var released := t.Rehash(1);
    OnePowerBetween(1, t.size);
    t.WithinLimitIff();
    assert KeysOf(t.Contents()) == {a, b};
    assert (set k: Key | k in KeysOf(t.Contents()) && t.hash(k) % 1 == 0) == {a, b};
    assert Crowd(t.hash, t.Contents(), 1, 0) == 2;
  }

  method TwoInTwoBuckets(hash: Key -> nat, a: Key, b: Key) returns (t: HashTable)
    requires hash(a) % 2 == 0 && hash(b) % 2 == 1
    ensures fresh(t) && t.Valid() && fresh(t.buckets) && t.bucketLimit == 1 && t.size == 2 && t.hash == hash
    ensures t.WithinLimit() && t.Contents() == [Pair(a, 1), Pair(b, 1)] && Kept(t.Contents()) == t.Contents()
  {
    t := OneInTwoBuckets(hash, a);
    var status, evicted;
    ghost var chain, d := [], t.Contents();
    assert t.Base() == d == [Pair(a, 1)];
    status, evicted, chain := t.Insert(b, 1, true);
    KeptUpTo(t.Contents(), 2);
  }

  method OneInTwoBuckets(hash: Key -> nat, a: Key) returns (t: HashTable)
    ensures fresh(t) && t.Valid() && fresh(t.buckets) && fresh(t.counts) && fresh(t.Repr) && t.bucketLimit == 1 &&
      t.size == 2 && t.hash == hash
    ensures t.WithinLimit() && t.Contents() == [Pair(a, 1)] && !t.automaticRehash
  {
    t := new HashTable(hash, 2);
    OnePowerBetween(2, t.size);
    t.SetBoundedBuckets(1);
    var status, evicted;
    ghost var chain;
    status, evicted, chain := t.Insert(a, 1, true);
  }
}
