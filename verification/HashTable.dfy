/**
 The chained hash table: an array of bucket chains with counts, the age list through all entries, heuristics that
 reorder chains, bucket limits with eviction, and rehashing.
 */
module HashTables {
  import opened HashLinks
  import opened Sequences
  import opened HashSpec
  import opened Options

  datatype Iterator = Iterator(entry: Entry?, next: Entry?)

  class HashTable {
    const hash: Key -> nat
    var size: nat
    var buckets: array<Entry?>
    var counts: array<int>
    var items: int
    var oldest: Entry?
    var newest: Entry?
    var heuristics: Heuristics
    var automaticRehash: bool
    var bucketLimit: nat
    ghost var chains: seq<seq<Entry>>
    ghost var ages: seq<Entry>
    ghost var Repr: set<Entry>
    /** Every entry that was freed, in order. */
    ghost var freed: seq<Entry>

    function Slot(key: Key): nat
      requires size > 0
      reads this`size
    {
      hash(key) % size
    }

    /** Bucket `b`: the pointer, the count, the links, and only entries that hash to it. */
    ghost predicate BucketAt(b: nat)
      requires size > 0 && b < |chains| && |chains| == buckets.Length == counts.Length
      reads this`size, this`chains, this`buckets, this`counts, this`Repr, buckets, counts, Repr`next, Repr`prev
    {
      && Nodes(chains[b]) <= Repr
      && buckets[b] == At(chains[b], 0) && counts[b] == |chains[b]|
      && Distinct(chains[b]) && Chained(chains[b])
      && forall e: Entry {:trigger e in Nodes(chains[b])} :: e in Nodes(chains[b]) ==> Slot(e.key) == b
    }

    ghost predicate EntryAt(e: Entry)
      requires size > 0 && size == |chains|
      reads this`size, this`chains
    {
      e in chains[Slot(e.key)]
    }

    ghost predicate AgesOk()
      reads this`ages, this`oldest, this`newest, Nodes(ages)`older, Nodes(ages)`newer
    {
      && Distinct(ages) && Aged(ages) && oldest == At(ages, 0) && newest == At(ages, |ages| - 1)
      && DistinctKeys(ages)
    }

    ghost predicate Valid()
      reads this, buckets, counts, Repr
    {
      && size > 0 && IsPowerOfTwo(size) && size == |chains| == buckets.Length == counts.Length
      && Nodes(ages) == Repr && items == |ages|
      && (forall b: nat {:trigger BucketAt(b)} :: b < size ==> BucketAt(b))
      && (forall e: Entry {:trigger EntryAt(e)} :: e in Repr ==> EntryAt(e))
      && AgesOk()
    }

    /** The pairs in the table, oldest first. */
    ghost function Contents(): seq<Pair>
      reads this, Nodes(ages)
    {
      seq(|ages|, i requires 0 <= i < |ages| reads this, Nodes(ages) => Pair(ages[i].key, ages[i].data))
    }

    lemma ContentsUnique()
      requires Valid()
      ensures UniqueKeys(Contents()) && |Contents()| == |ages|
    {
      forall i: nat, j: nat {:trigger Contents()[i], Contents()[j]} | i < j < |ages|
        ensures Contents()[i].key != Contents()[j].key {
        assert ages[i].key != ages[j].key;
      }
    }

    /** The chain of a key's bucket holds exactly the entries with keys of that bucket, so a key is found there or
        nowhere. */
    lemma FoundOrAbsent(key: Key, k: nat)
      requires Valid() && k <= |chains[Slot(key)]|
      requires k < |chains[Slot(key)]| ==> chains[Slot(key)][k].key == key
      requires k == |chains[Slot(key)]| ==> forall i: nat {:trigger chains[Slot(key)][i]} :: i < k ==>
        chains[Slot(key)][i].key != key
      ensures Lookup(Contents(), key) == if k < |chains[Slot(key)]| then Some(chains[Slot(key)][k].data) else None
      ensures k < |chains[Slot(key)]| <==> HasKey(Contents(), key)
    {
      var b := Slot(key);
      assert BucketAt(b);
      ContentsUnique();
      if k < |chains[b]| {
        var e := chains[b][k];
        assert e in Nodes(chains[b]) && e in Nodes(ages);
        var i: nat :| i < |ages| && ages[i] == e;
        LookupAtIndex(Contents(), i);
        assert Contents()[i].key == key;
      } else {
        forall i: nat {:trigger ages[i]} | i < |ages| ensures ages[i].key != key {
          assert ages[i] in Nodes(ages) && EntryAt(ages[i]);
        }
        LookupAbsent(Contents(), key);
      }
    }

    constructor (hash: Key -> nat, requested: nat)
      requires requested <= 0x4000_0000
      ensures Valid() && fresh(buckets) && fresh(counts) && Repr == {} && Contents() == [] && freed == []
      ensures this.hash == hash && requested <= size && IsPowerOfTwo(size) && (size > 1 ==> size < 2 * requested)
      ensures heuristics == NoHeuristics && !automaticRehash && bucketLimit == 0
    {
      this.hash := hash;
      heuristics, automaticRehash, bucketLimit := NoHeuristics, false, 0;
      items, oldest, newest := 0, null, null;
      ages, Repr, freed := [], {}, [];
      var n := RoundUp(requested);
      size := n;
      buckets := new Entry?[n](_ => null);
      counts := new int[n](_ => 0);
      chains := seq(n, _ => []);
      new;
      forall b: nat {:trigger BucketAt(b)} | b < size ensures BucketAt(b) {
        assert chains[b] == [] && buckets[b] == null && counts[b] == 0;
      }
    }

    /** Looks for a key along the chain of bucket `b`. */
    method SearchInBucket(b: nat, key: Key) returns (e: Entry?, ghost k: nat)
      requires Valid() && b == Slot(key)
      ensures k <= |chains[b]| && e == At(chains[b], k)
      ensures e != null ==> e.key == key
      ensures forall i: nat {:trigger chains[b][i]} :: i < k ==> chains[b][i].key != key
    {
      assert BucketAt(b);
      e, k := buckets[b], 0;
      while e != null && e.key != key
        invariant k <= |chains[b]| && e == At(chains[b], k)
        invariant forall i: nat {:trigger chains[b][i]} :: i < k ==> chains[b][i].key != key
        decreases |chains[b]| - k
      {
        assert ChainAt(chains[b], k);
        e, k := e.next, k + 1;
      }
    }

    twostate predicate BucketKept(c: nat)
      requires c < |chains| && c < |old(chains)| && buckets == old(buckets) && counts == old(counts)
      requires c < buckets.Length && c < counts.Length
      reads this`chains, this`buckets, this`counts, buckets, counts
    {
      chains[c] == old(chains[c]) && buckets[c] == old(buckets[c]) && counts[c] == old(counts[c])
    }

    twostate lemma StillInside(new b: nat, new c: nat)
      requires old(Valid()) && size == old(size) && buckets == old(buckets) && counts == old(counts) &&
        |chains| == |old(chains)| == size
      requires b < size && c < size && c != b && BucketKept(c)
      requires forall e: Entry {:trigger e in Repr} :: e in old(Repr) && e !in Repr ==> Slot(e.key) == b
      ensures Nodes(chains[c]) <= Repr && Nodes(chains[c]) !! Nodes(old(chains[b]))
    {
      assert old(BucketAt(c)) && old(BucketAt(b));
      forall e: Entry | e in Nodes(chains[c]) ensures e in Repr && e !in Nodes(old(chains[b])) {
        assert e in old(Nodes(chains[c]));
        assert Slot(e.key) == c && (e in old(Nodes(chains[b])) ==> c == b);
      }
    }

    /** When only bucket `b` and links of its entries changed, every other bucket is as it was. */
    twostate lemma OthersKept(new b: nat, new c: nat)
      requires old(Valid()) && size == old(size) && buckets == old(buckets) && counts == old(counts) &&
        |chains| == |old(chains)| == size
      requires b < size && c < size && c != b && BucketKept(c)
      requires forall e: Entry {:trigger e.next} {:trigger e.prev} :: e in old(Repr) && e !in Nodes(old(chains[b])) ==>
        e.next == old(e.next) && e.prev == old(e.prev)
      requires forall e: Entry {:trigger e in Repr} :: e in old(Repr) && e !in Repr ==> Slot(e.key) == b
      ensures BucketAt(c)
    {
      StillInside(b, c);
      assert old(BucketAt(c));
      forall e: Entry {:trigger e in Nodes(chains[c])} | e in Nodes(chains[c]) ensures Slot(e.key) == c {
        assert e in old(Nodes(chains[c]));
      }
      forall i: nat {:trigger ChainAt(chains[c], i)} | i < |chains[c]| ensures ChainAt(chains[c], i) {
        assert old(ChainAt(chains[c], i));
        assert chains[c][i] in Nodes(chains[c]);
      }
    }

    twostate lemma EntriesAgain(b: nat)
      requires old(Valid()) && b < size == old(size) && buckets == old(buckets) && counts == old(counts) &&
        |chains| == |old(chains)| == size
      requires forall c: nat {:trigger BucketKept(c)} :: c < size && c != b ==> BucketKept(c)
      requires forall e: Entry {:trigger e in Repr} :: e in Repr ==> if Slot(e.key) == b then e in chains[b]
        else e in old(Repr)
      ensures forall e: Entry {:trigger EntryAt(e)} :: e in Repr ==> EntryAt(e)
    {
      forall e: Entry {:trigger EntryAt(e)} | e in Repr ensures EntryAt(e) {
        if Slot(e.key) != b {
          assert old(EntryAt(e)) && BucketKept(Slot(e.key));
        }
      }
    }

    /** Puts the table together again after a change to bucket `b` and to the age list. */
    twostate lemma ValidAgain(b: nat)
      requires old(Valid()) && b < size == old(size) && buckets == old(buckets) && counts == old(counts) &&
        |chains| == |old(chains)| == size
      requires forall c: nat {:trigger BucketKept(c)} :: c < size && c != b ==> BucketKept(c)
      requires forall e: Entry {:trigger e.next} {:trigger e.prev} :: e in old(Repr) && e !in Nodes(old(chains[b])) ==>
        e.next == old(e.next) && e.prev == old(e.prev)
      requires BucketAt(b)
      requires Nodes(ages) == Repr && items == |ages| && AgesOk()
      requires forall e: Entry {:trigger e in Repr} :: e in Repr ==> if Slot(e.key) == b then e in chains[b]
        else e in old(Repr)
      requires forall e: Entry {:trigger e in Repr} :: e in old(Repr) && e !in Repr ==> Slot(e.key) == b
      ensures Valid()
    {
      forall c: nat {:trigger BucketAt(c)} | c < size && c != b ensures BucketAt(c) {
        assert BucketKept(c);
        OthersKept(b, c);
      }
      EntriesAgain(b);
    }

    /** A chain that lost the entries `gone` and won the entries `added` of its bucket, like the whole table, keeps the
        table. */
    twostate lemma ChainChanged(new b: nat, new gone: set<Entry>, added: set<Entry>)
      requires old(Valid()) && b < size == old(size) && buckets == old(buckets) && counts == old(counts) &&
        |chains| == |old(chains)| == size
      requires forall c: nat {:trigger BucketKept(c)} :: c < size && c != b ==> BucketKept(c)
      requires forall e: Entry {:trigger e.next} {:trigger e.prev} :: e in old(Repr) && e !in Nodes(old(chains[b])) ==>
        e.next == old(e.next) && e.prev == old(e.prev)
      requires gone <= Nodes(old(chains[b])) && forall e: Entry {:trigger e in added} :: e in added ==> Slot(e.key) == b
      requires Nodes(chains[b]) == Nodes(old(chains[b])) - gone + added && Repr == old(Repr) - gone + added
      requires Distinct(chains[b]) && Chained(chains[b]) && buckets[b] == At(chains[b], 0) && counts[b] == |chains[b]|
      requires Nodes(ages) == Repr && items == |ages| && AgesOk()
      ensures Valid()
    {
      assert old(BucketAt(b));
      forall e: Entry {:trigger e in Nodes(chains[b])} | e in Nodes(chains[b]) ensures Slot(e.key) == b && e in Repr {
        if e !in added { assert e in old(Nodes(chains[b])); }
      }
      forall e: Entry {:trigger e in Repr} | e in old(Repr) && e !in Repr ensures Slot(e.key) == b {
        assert e in old(Nodes(chains[b]));
      }
      forall e: Entry {:trigger e in Repr} | e in Repr
        ensures if Slot(e.key) == b then e in chains[b] else e in old(Repr) {
        if e !in added {
          assert old(EntryAt(e));
          assert Slot(e.key) == b ==> e in Nodes(chains[b]);
        } else {
          assert e in Nodes(chains[b]);
        }
      }
      ValidAgain(b);
    }

    lemma BucketFacts(b: nat)
      requires Valid() && b < size
      ensures buckets[b] == At(chains[b], 0) && counts[b] == |chains[b]| && Distinct(chains[b]) && Chained(chains[b]) &&
        Nodes(chains[b]) <= Repr
    {
      assert BucketAt(b);
    }

    /** A chain in another order keeps the table and its contents. */
    twostate lemma ChainReordered(new b: nat)
      requires old(Valid()) && b < size == old(size) && buckets == old(buckets) && counts == old(counts) &&
        |chains| == |old(chains)| == size
      requires chains == old(chains)[b := chains[b]] && Nodes(chains[b]) == Nodes(old(chains[b]))
      requires forall c: nat {:trigger buckets[c]} :: c < buckets.Length && c != b ==> buckets[c] == old(buckets[c])
      requires counts[..] == old(counts[..]) && |chains[b]| == |old(chains[b])|
      requires forall e: Entry {:trigger e.next} {:trigger e.prev} :: e in old(Repr) && e !in Nodes(old(chains[b])) ==>
        e.next == old(e.next) && e.prev == old(e.prev)
      requires Distinct(chains[b]) && Chained(chains[b]) && buckets[b] == At(chains[b], 0)
      requires Repr == old(Repr) && ages == old(ages) && items == old(items) && AgesOk()
      ensures Valid()
    {
      assert old(BucketAt(b)) && counts[b] == old(counts[b]);
      forall c: nat {:trigger BucketKept(c)} | c < size && c != b ensures BucketKept(c) {
        assert counts[c] == counts[..][c] && old(counts[c]) == old(counts[..])[c];
      }
      ChainChanged(b, {}, {});
    }

    /** Moves the entry that was found to the front of its chain. */
    method MoveFirst(b: nat, e: Entry, ghost k: nat)
      requires Valid() && b < size && k < |chains[b]| && chains[b][k] == e
      modifies this`chains, buckets, Repr`next, Repr`prev
      ensures Valid() && Contents() == old(Contents())
      ensures chains == old(chains)[b := [e] + Without(old(chains[b]), k)]
    {
      BucketFacts(b);
      ghost var s := chains[b];
      if e == buckets[b] {
        assert k == 0 && [e] + Without(s, k) == s;
        return;
      }
      ToFront(e, buckets[b], s, k);
      buckets[b] := e;
      chains := chains[b := [e] + Without(s, k)];
      ChainReordered(b);
    }

    /** Moves the entry that was found one place up its chain. */
    method MoveUp(b: nat, e: Entry, ghost k: nat)
      requires Valid() && b < size && k < |chains[b]| && chains[b][k] == e
      modifies this`chains, buckets, Repr`next, Repr`prev
      ensures Valid() && Contents() == old(Contents())
      ensures chains == old(chains)[b := if k == 0 then old(chains[b]) else Swapped(old(chains[b]), k)]
    {
      BucketFacts(b);
      assert ChainAt(chains[b], k);
      if e.prev != null {
        SwapInBucket(b, e, k);
        ChainReordered(b);
      }
    }

    method SwapInBucket(b: nat, e: Entry, ghost k: nat)
      requires b < |chains| == buckets.Length && buckets[b] == At(chains[b], 0)
      requires Distinct(chains[b]) && Chained(chains[b]) && 0 < k < |chains[b]| && chains[b][k] == e
      modifies this`chains, buckets, Nodes(chains[b])`next, Nodes(chains[b])`prev
      ensures chains == old(chains)[b := Swapped(old(chains[b]), k)] && Nodes(chains[b]) == Nodes(old(chains[b]))
      ensures Distinct(chains[b]) && Chained(chains[b]) && buckets[b] == At(chains[b], 0)
      ensures forall c: nat {:trigger buckets[c]} :: c < buckets.Length && c != b ==> buckets[c] == old(buckets[c])
    {
      ghost var s := chains[b];
      var first := SwapUp(e, s, k);
      if first {
        buckets[b] := e;
      }
      chains := chains[b := Swapped(s, k)];
    }

    /** Chains may be reordered, but each is as long as before. */
    twostate predicate SameLengths()
      reads this`chains
    {
      |chains| == |old(chains)| && forall c: nat {:trigger chains[c]} :: c < |chains| ==>
        |chains[c]| == |old(chains)[c]|
    }

    /** Looks for a key and applies a heuristic when it is found: with move-to-front its entry becomes the first of the
        chain, with transpose it changes places with the one before it. */
    method Search(b: nat, key: Key, heuristics: Heuristics) returns (e: Entry?)
      requires Valid() && b == Slot(key)
      modifies this`chains, buckets, Repr`next, Repr`prev
      ensures Valid() && Contents() == old(Contents())
      ensures e == null <==> !HasKey(Contents(), key)
      ensures e != null ==> e.key == key && e in Repr && Lookup(Contents(), key) == Some(e.data)
      ensures e == null ==> Lookup(Contents(), key) == None
      ensures chains == old(chains)[b := Reordered(old(chains[b]), key, heuristics)] && SameLengths()
    {
      ghost var k: nat;
      e, k := SearchInBucket(b, key);
      FoundOrAbsent(key, k);
      IndexIs(chains[b], key, k);
      if e != null {
        assert BucketAt(b) && e in Nodes(chains[b]);
        if heuristics.MoveToFront? {
          MoveFirst(b, e, k);
        } else if heuristics.Transpose? {
          MoveUp(b, e, k);
        }
      }
    }

    method SetHeuristics(heuristics: Heuristics)
      requires Valid()
      modifies this`heuristics
      ensures Valid() && Contents() == old(Contents()) && this.heuristics == heuristics
    {
      this.heuristics := heuristics;
    }

    /** Sets how many entries a bucket may hold; 0 means any number. A table that is still empty is within every
        limit. */
    method SetBoundedBuckets(limit: nat)
      requires Valid()
      modifies this`bucketLimit
      ensures Valid() && Contents() == old(Contents()) && bucketLimit == limit
      ensures Contents() == [] ==> WithinLimit()
    {
      bucketLimit := limit;
      forall b: nat {:trigger chains[b]} | b < |chains| && chains[b] != [] ensures Contents() != [] {
        assert BucketAt(b) && chains[b][0] in Nodes(chains[b]);
        assert chains[b][0] in Nodes(ages);
      }
    }

    method SetRehash(automatic: bool)
      requires Valid()
      modifies this`automaticRehash
      ensures Valid() && Contents() == old(Contents()) && automaticRehash == automatic
    {
      automaticRehash := automatic;
    }

    /** The data for a key, or NULL; the configured heuristic may reorder the chain. */
    method Get(key: Key) returns (data: Data)
      requires Valid()
      modifies this`chains, buckets, Repr`next, Repr`prev
      ensures Valid() && Contents() == old(Contents()) && (old(WithinLimit()) ==> WithinLimit())
      ensures data == DataOf(Lookup(Contents(), key))
      ensures chains == old(chains)[Slot(key) := Reordered(old(chains[Slot(key)]), key, heuristics)]
    {
      var e := Search(Slot(key), key, heuristics);
      data := if e != null then e.data else 0;
    }

    method SetData(e: Entry, data: Data)
      requires Valid() && e in Repr
      modifies e`data
      ensures Valid()
      ensures Contents() == Replaced(old(Contents()), e.key, data)
    {
      ghost var i := AgeOf(e);
      ContentsUnique();
      LookupAtIndex(Contents(), i);
      assert Contents()[i].key == e.key;
      e.data := data;
      forall j: nat {:trigger Contents()[j]} | j < |ages|
        ensures Contents()[j] == old(Contents())[i := Pair(e.key, data)][j] {
        assert j != i ==> ages[j] != ages[i];
      }
      assert Contents() == old(Contents())[i := Pair(e.key, data)];
    }

    /** Replaces the data of a key that is present; answers the data it had, or NULL. */
    method Replace(key: Key, data: Data) returns (was: Data)
      requires Valid()
      modifies this`chains, buckets, Repr`next, Repr`prev, Repr`data
      ensures Valid() && (old(WithinLimit()) ==> WithinLimit())
      ensures was == DataOf(Lookup(old(Contents()), key))
      ensures Contents() == Replaced(old(Contents()), key, data)
      ensures chains == old(chains)[Slot(key) := Reordered(old(chains[Slot(key)]), key, heuristics)]
    {
      var e := Search(Slot(key), key, heuristics);
      if e == null {
        AbsentUnchanged(Contents(), key);
        return 0;
      }
      was := e.data;
      SetData(e, data);
    }

    ghost function AgeOf(e: Entry): (i: nat)
      requires Nodes(ages) == Repr && e in Repr
      reads this
      ensures i < |ages| && ages[i] == e
    {
      assert e in Nodes(ages);
      var i: nat :| i < |ages| && ages[i] == e;
      i
    }

    method RemoveFromAges(e: Entry, ghost i: nat)
      requires AgesOk() && i < |ages| && ages[i] == e
      modifies this`oldest, this`newest, this`ages, Nodes(ages)`older, Nodes(ages)`newer
      ensures ages == Without(old(ages), i) && AgesOk()
    {
      ghost var t := Without(ages, i);
      KeysApart(ages, i);
      UnlinkAge(e, ages, i);
      assert Aged(t) && At(t, 0) == (if i == 0 then At(ages, 1) else At(ages, 0));
      assert At(t, |t| - 1) == if i == |t| then At(ages, |t| - 1) else At(ages, |t|);
      if e.older == null {
        oldest := e.newer;
      }
      if e.newer == null {
        newest := e.older;
      }
      ages := t;
    }

    method RemoveFromBucket(b: nat, e: Entry, ghost s: seq<Entry>, ghost k: nat)
      requires b < buckets.Length && buckets[b] == At(s, 0) && Distinct(s) && Chained(s) && k < |s| && s[k] == e
      modifies buckets, Nodes(s)`next, Nodes(s)`prev
      ensures Distinct(Without(s, k)) && Chained(Without(s, k)) && buckets[b] == At(Without(s, k), 0)
      ensures forall c: nat {:trigger buckets[c]} :: c < buckets.Length && c != b ==> buckets[c] == old(buckets[c])
    {
      UnlinkChain(e, s, k);
      if e.prev == null {
        buckets[b] := e.next;
      }
    }

    /** Links an entry out of its chain and out of the age list. */
    method RemoveFromChain(b: nat, e: Entry, ghost s: seq<Entry>, ghost k: nat, ghost i: nat)
      requires b < buckets.Length && buckets[b] == At(s, 0) && Distinct(s) && Chained(s) && k < |s| && s[k] == e
      requires AgesOk() && i < |ages| && ages[i] == e
      modifies buckets, this`oldest, this`newest, this`ages
      modifies Nodes(s)`next, Nodes(s)`prev, Nodes(ages)`older, Nodes(ages)`newer
      ensures Distinct(Without(s, k)) && Chained(Without(s, k)) && buckets[b] == At(Without(s, k), 0)
      ensures forall c: nat {:trigger buckets[c]} :: c < buckets.Length && c != b ==> buckets[c] == old(buckets[c])
      ensures ages == Without(old(ages), i) && AgesOk()
    {
      RemoveFromBucket(b, e, s, k);
      ghost var t := Without(s, k);
      label L:
      RemoveFromAges(e, i);
      forall j: nat {:trigger ChainAt(t, j)} | j < |t| ensures ChainAt(t, j) {
        assert old@L(ChainAt(t, j));
      }
    }

    /** Losing one entry of the age list loses one pair. */
    twostate lemma ContentsWithout(i: nat)
      requires i < |old(ages)| && ages == Without(old(ages), i)
      requires forall e: Entry {:trigger e.data} :: e in Nodes(old(ages)) ==> e.data == old(e.data)
      ensures Contents() == Without(old(Contents()), i)
    {
      forall j: nat {:trigger Contents()[j]} | j < |ages| ensures Contents()[j] == Without(old(Contents()), i)[j] {
        var e := ages[j];
        assert e == old(ages)[if j < i then j else j + 1] && e in Nodes(old(ages));
      }
    }

    /** Taking one entry out of bucket `b` and of the age list keeps the table. */
    twostate lemma ShorterChain(new b: nat, e: Entry, new k: nat)
      requires old(Valid()) && b < size == old(size) && buckets == old(buckets) && counts == old(counts) &&
        |chains| == |old(chains)| == size
      requires forall c: nat {:trigger BucketKept(c)} :: c < size && c != b ==> BucketKept(c)
      requires forall e: Entry {:trigger e.next} {:trigger e.prev} :: e in old(Repr) && e !in Nodes(old(chains[b])) ==>
        e.next == old(e.next) && e.prev == old(e.prev)
      requires k < |old(chains[b])| && old(chains[b])[k] == e && chains[b] == Without(old(chains[b]), k)
      requires Distinct(chains[b]) && Chained(chains[b]) && buckets[b] == At(chains[b], 0) && counts[b] == |chains[b]|
      requires Repr == old(Repr) - {e} && Nodes(ages) == Repr && items == |ages| && AgesOk()
      ensures Valid()
    {
      assert old(BucketAt(b));
      NotInWithout(old(chains[b]), k);
      ChainChanged(b, {e}, {});
    }

    lemma PairOf(e: Entry, i: nat)
      requires Valid() && i < |ages| && ages[i] == e
      ensures Lookup(Contents(), e.key) == Some(e.data) && Removed(Contents(), e.key) == Without(Contents(), i) &&
        HasKey(Contents(), e.key)
    {
      ContentsUnique();
      LookupAtIndex(Contents(), i);
      assert Contents()[i].key == e.key;
    }

    method DropEntry(b: nat, e: Entry, ghost k: nat, ghost i: nat)
      requires b < |chains| == buckets.Length == counts.Length && buckets[b] == At(chains[b], 0)
      requires Distinct(chains[b]) && Chained(chains[b]) && k < |chains[b]| && chains[b][k] == e
      requires AgesOk() && i < |ages| && ages[i] == e
      modifies buckets, counts, this`items, this`oldest, this`newest, this`ages, this`chains
      modifies Nodes(chains[b])`next, Nodes(chains[b])`prev, Nodes(ages)`older, Nodes(ages)`newer
      ensures chains == old(chains)[b := Without(old(chains[b]), k)] && ages == Without(old(ages), i)
      ensures Distinct(chains[b]) && Chained(chains[b]) && buckets[b] == At(chains[b], 0)
      ensures counts[b] == old(counts[b]) - 1 && items == old(items) - 1
      ensures forall c: nat {:trigger BucketKept(c)} :: c < |chains| && c != b ==> BucketKept(c)
      ensures AgesOk() && Nodes(ages) == Nodes(old(ages)) - {e}
    {
      NotInWithout(ages, i);
      RemoveFromChain(b, e, chains[b], k, i);
      items := items - 1;
      counts[b] := counts[b] - 1;
      chains := chains[b := Without(chains[b], k)];
    }

    method FreeEntry(b: nat, e: Entry, ghost k: nat, ghost i: nat)
      requires b < |chains| == buckets.Length == counts.Length && buckets[b] == At(chains[b], 0)
      requires Distinct(chains[b]) && Chained(chains[b]) && k < |chains[b]| && chains[b][k] == e
      requires AgesOk() && i < |ages| && ages[i] == e
      modifies buckets, counts, this`items, this`oldest, this`newest, this`ages, this`chains, this`Repr, this`freed
      modifies Nodes(chains[b])`next, Nodes(chains[b])`prev, Nodes(ages)`older, Nodes(ages)`newer
      ensures chains == old(chains)[b := Without(old(chains[b]), k)] && ages == Without(old(ages), i)
      ensures Distinct(chains[b]) && Chained(chains[b]) && buckets[b] == At(chains[b], 0)
      ensures counts[b] == old(counts[b]) - 1 && items == old(items) - 1
      ensures forall c: nat {:trigger BucketKept(c)} :: c < |chains| && c != b ==> BucketKept(c)
      ensures AgesOk() && Nodes(ages) == Nodes(old(ages)) - {e} && Repr == old(Repr) - {e} && freed == old(freed) + [e]
    {
      DropEntry(b, e, k, i);
      Repr, freed := Repr - {e}, freed + [e];
    }

    /** Takes the entry at `k` of bucket `b` out of the table and frees it. */
    method Unhook(b: nat, e: Entry, ghost k: nat) returns (ghost i: nat)
      requires Valid() && b < size && k < |chains[b]| && chains[b][k] == e
      modifies this`oldest, this`newest, this`ages, this`chains, this`Repr, this`freed, this`items
      modifies buckets, counts, Repr`next, Repr`prev, Repr`older, Repr`newer
      ensures Valid() && Repr == old(Repr) - {e} && freed == old(freed) + [e]
      ensures chains == old(chains)[b := Without(old(chains[b]), k)]
      ensures i < |old(ages)| && old(ages)[i] == e && ages == Without(old(ages), i)
      ensures Contents() == Removed(old(Contents()), e.key)
    {
      i := ReadyToUnhook(b, e, k);
      FreeEntry(b, e, k, i);
      assert forall x: Entry {:trigger x.next} {:trigger x.prev} :: x in old(Repr) && x !in Nodes(old(chains[b])) ==>
        x.next == old(x.next) && x.prev == old(x.prev);
      ContentsWithout(i);
      ShorterChain(b, e, k);
    }

    lemma ReadyToUnhook(b: nat, e: Entry, k: nat) returns (i: nat)
      requires Valid() && b < size && k < |chains[b]| && chains[b][k] == e
      ensures buckets[b] == At(chains[b], 0) && counts[b] == |chains[b]| && Distinct(chains[b]) && Chained(chains[b]) &&
        Nodes(chains[b]) <= Repr
      ensures i < |ages| && ages[i] == e && Removed(Contents(), e.key) == Without(Contents(), i)
    {
      assert BucketAt(b) && e in Nodes(chains[b]);
      i := AgeOf(e);
      PairOf(e, i);
    }

    /** Takes a key out; answers its data, or NULL. */
    method Remove(key: Key) returns (data: Data, ghost gone: seq<Entry>, ghost at: nat)
      requires Valid()
      modifies this`oldest, this`newest, this`ages, this`chains, this`Repr, this`freed, this`items
      modifies buckets, counts, Repr`next, Repr`prev, Repr`older, Repr`newer
      ensures Valid() && data == DataOf(Lookup(old(Contents()), key)) && (old(WithinLimit()) ==> WithinLimit())
      ensures Contents() == Removed(old(Contents()), key)
      ensures freed == old(freed) + gone && Repr == old(Repr) - Nodes(gone)
      ensures if HasKey(old(Contents()), key)
              then at < |old(ages)| && old(ages)[at].key == key && gone == [old(ages)[at]] &&
                ages == Without(old(ages), at)
              else gone == [] && ages == old(ages)
      ensures var s := old(chains[Slot(key)]);
        var k := IndexOf(s, key);
        chains == if k < |s| then old(chains)[Slot(key) := Without(s, k)] else old(chains)
    {
      var b := Slot(key);
      var e, k := SearchInBucket(b, key);
      FoundOrAbsent(key, k);
      IndexIs(chains[b], key, k);
      if e == null {
        AbsentUnchanged(Contents(), key);
        return 0, [], 0;
      }
      assert BucketAt(b) && e in Nodes(chains[b]);
      at := Unhook(b, e, k);
      data, gone := e.data, [e];
    }

    /** Puts an entry in front of its chain. */
    method PlaceFirst(b: nat, e: Entry)
      requires b < |chains| == buckets.Length && buckets[b] == At(chains[b], 0)
      requires Distinct(chains[b]) && Chained(chains[b]) && e !in chains[b]
      modifies buckets, this`chains, Nodes(chains[b])`prev, e`next, e`prev
      ensures chains == old(chains)[b := [e] + old(chains[b])]
      ensures Distinct(chains[b]) && Chained(chains[b]) && buckets[b] == e
      ensures forall c: nat {:trigger buckets[c]} :: c < buckets.Length && c != b ==> buckets[c] == old(buckets[c])
    {
      PushChain(e, buckets[b], chains[b]);
      buckets[b] := e;
      chains := chains[b := [e] + chains[b]];
    }

    /** Puts an entry at the young end of the age list. */
    method AppendToAges(e: Entry)
      requires AgesOk() && e !in ages && e.newer == null && forall i: nat {:trigger ages[i]} :: i < |ages| ==>
        ages[i].key != e.key
      modifies this`oldest, this`newest, this`ages, Nodes(ages)`newer, e`older
      ensures ages == old(ages) + [e] && AgesOk()
    {
      if oldest == null {
        oldest := e;
      }
      AppendAge(e, newest, ages);
      newest := e;
      ages := ages + [e];
    }

    /** The last entry of a chain, found by walking it. */
    method LastInBucket(b: nat) returns (e: Entry)
      requires b < |chains| == buckets.Length && buckets[b] == At(chains[b], 0) && Chained(chains[b]) && chains[b] != []
      ensures e == chains[b][|chains[b]| - 1]
    {
      e := buckets[b];
      ghost var k := 0;
      assert ChainAt(chains[b], k);
      while e.next != null
        invariant k < |chains[b]| && e == chains[b][k] && ChainAt(chains[b], k)
        decreases |chains[b]| - k
      {
        e, k := e.next, k + 1;
        assert ChainAt(chains[b], k);
      }
    }

    /** Drops the last entry of a chain and hands its pair to the callback. */
    method EvictLast(b: nat, ghost i: nat) returns (gone: Pair)
      requires b < |chains| == buckets.Length && buckets[b] == At(chains[b], 0) && Distinct(chains[b]) &&
        Chained(chains[b]) && chains[b] != []
      requires AgesOk() && i < |ages| && ages[i] == chains[b][|chains[b]| - 1]
      modifies buckets, this`oldest, this`newest, this`ages, this`chains, this`freed
      modifies Nodes(chains[b])`next, Nodes(chains[b])`prev, Nodes(ages)`older, Nodes(ages)`newer
      ensures chains == old(chains)[b := Without(old(chains[b]), |old(chains[b])| - 1)]
      ensures Distinct(chains[b]) && Chained(chains[b]) && buckets[b] == At(chains[b], 0)
      ensures forall c: nat {:trigger buckets[c]} :: c < buckets.Length && c != b ==> buckets[c] == old(buckets[c])
      ensures ages == Without(old(ages), i) && AgesOk()
      ensures freed == old(freed) + [old(ages)[i]] && gone == Pair(old(ages)[i].key, old(ages)[i].data)
    {
      var e := LastInBucket(b);
      RemoveFromChain(b, e, chains[b], |chains[b]| - 1, i);
      chains := chains[b := Without(chains[b], |chains[b]| - 1)];
      gone := Pair(e.key, e.data);
      freed := freed + [e];
    }

    predicate Full(b: nat)
      requires b < counts.Length
      reads this`counts, this`bucketLimit, counts
    {
      bucketLimit != 0 && counts[b] >= bucketLimit
    }

    method PlaceInBucket(b: nat, e: Entry, ghost i: nat) returns (evicted: Option<Pair>)
      requires b < |chains| == buckets.Length == counts.Length && buckets[b] == At(chains[b], 0) &&
        counts[b] == |chains[b]|
      requires Distinct(chains[b]) && Chained(chains[b]) && e !in chains[b] && AgesOk()
      requires Full(b) ==> i < |ages| && ages[i] == chains[b][|chains[b]| - 1]
      modifies buckets, counts, this`oldest, this`newest, this`ages, this`chains, this`freed, this`items
      modifies Nodes(chains[b])`next, Nodes(chains[b])`prev, Nodes(ages)`older, Nodes(ages)`newer, e`next, e`prev
      ensures old(Full(b)) ==>
        && chains == old(chains)[b := [e] + Without(old(chains[b]), |old(chains[b])| - 1)]
        && ages == Without(old(ages), i) && freed == old(freed) + [old(ages)[i]]
        && evicted == Some(Pair(old(ages)[i].key, old(ages)[i].data)) && items == old(items) &&
          counts[b] == old(counts[b])
      ensures !old(Full(b)) ==>
        && chains == old(chains)[b := [e] + old(chains[b])] && ages == old(ages) && freed == old(freed)
        && evicted == None && items == old(items) + 1 && counts[b] == old(counts[b]) + 1
      ensures Distinct(chains[b]) && Chained(chains[b]) && buckets[b] == At(chains[b], 0) && AgesOk()
      ensures forall c: nat {:trigger BucketKept(c)} :: c < |chains| && c != b ==> BucketKept(c)
    {
      PlaceFirst(b, e);
      if bucketLimit != 0 && counts[b] >= bucketLimit {
        LastOfLonger(e, old(chains[b]));
        var gone := EvictLast(b, i);
        evicted := Some(gone);
      } else {
        evicted := None;
        counts[b] := counts[b] + 1;
        items := items + 1;
      }
    }

    /** Links a new entry in, at the cost of the chain's last one when the bucket is full. */
    method Link(b: nat, e: Entry, ghost i: nat) returns (evicted: Option<Pair>)
      requires b < |chains| == buckets.Length == counts.Length && buckets[b] == At(chains[b], 0) &&
        counts[b] == |chains[b]|
      requires Distinct(chains[b]) && Chained(chains[b]) && e !in chains[b]
      requires AgesOk() && e !in ages && e.newer == null && forall j: nat {:trigger ages[j]} :: j < |ages| ==>
        ages[j].key != e.key
      requires Full(b) ==> i < |ages| && ages[i] == chains[b][|chains[b]| - 1]
      modifies buckets, counts, this`oldest, this`newest, this`ages, this`chains, this`freed, this`items
      modifies Nodes(chains[b])`next, Nodes(chains[b])`prev, Nodes(ages)`older, Nodes(ages)`newer, e`next, e`prev,
        e`older
      ensures old(Full(b)) ==>
        && chains == old(chains)[b := [e] + Without(old(chains[b]), |old(chains[b])| - 1)]
        && ages == Without(old(ages), i) + [e] && freed == old(freed) + [old(ages)[i]]
        && evicted == Some(Pair(old(ages)[i].key, old(ages)[i].data)) && items == old(items) &&
          counts[b] == old(counts[b])
      ensures !old(Full(b)) ==>
        && chains == old(chains)[b := [e] + old(chains[b])] && ages == old(ages) + [e] && freed == old(freed)
        && evicted == None && items == old(items) + 1 && counts[b] == old(counts[b]) + 1
      ensures Distinct(chains[b]) && Chained(chains[b]) && buckets[b] == At(chains[b], 0) && AgesOk()
      ensures forall c: nat {:trigger BucketKept(c)} :: c < |chains| && c != b ==> BucketKept(c)
    {
      evicted := PlaceInBucket(b, e, i);
      if old(Full(b)) { OtherKeys(old(ages), i, e); }
      label L:
      AppendToAges(e);
      ChainedKept@L(chains[b]);
    }

    /** A new entry's key stays new when an entry goes. */
    lemma OtherKeys(s: seq<Entry>, i: nat, e: Entry)
      requires i < |s| && e !in s && forall j: nat {:trigger s[j]} :: j < |s| ==> s[j].key != e.key
      ensures e !in Without(s, i)
      ensures forall j: nat {:trigger Without(s, i)[j]} :: j < |s| - 1 ==> Without(s, i)[j].key != e.key
    {
      forall j: nat {:trigger Without(s, i)[j]} | j < |s| - 1
        ensures Without(s, i)[j] in s && Without(s, i)[j].key != e.key {
        assert Without(s, i)[j] == s[if j < i then j else j + 1];
      }
    }

    /** Placing a new entry in front keeps the table. */
    twostate lemma LongerChain(new b: nat, e: Entry)
      requires old(Valid()) && b < size == old(size) && buckets == old(buckets) && counts == old(counts) &&
        |chains| == |old(chains)| == size
      requires forall c: nat {:trigger BucketKept(c)} :: c < size && c != b ==> BucketKept(c)
      requires forall e: Entry {:trigger e.next} {:trigger e.prev} :: e in old(Repr) && e !in Nodes(old(chains[b])) ==>
        e.next == old(e.next) && e.prev == old(e.prev)
      requires b == Slot(e.key) && e !in old(Repr) && chains[b] == [e] + old(chains[b])
      requires Distinct(chains[b]) && Chained(chains[b]) && buckets[b] == At(chains[b], 0) && counts[b] == |chains[b]|
      requires Repr == old(Repr) + {e} && ages == old(ages) + [e] && items == |ages| && AgesOk()
      ensures Valid()
    {
      FrontNodes(e, old(chains[b]));
      BackNodes(old(ages), e);
      ChainChanged(b, {}, {e});
    }

    /** Placing a new entry in front and dropping the last one keeps the table. */
    twostate lemma ShiftedChain(new b: nat, e: Entry, new i: nat)
      requires old(Valid()) && b < size == old(size) && buckets == old(buckets) && counts == old(counts) &&
        |chains| == |old(chains)| == size
      requires forall c: nat {:trigger BucketKept(c)} :: c < size && c != b ==> BucketKept(c)
      requires forall e: Entry {:trigger e.next} {:trigger e.prev} :: e in old(Repr) && e !in Nodes(old(chains[b])) ==>
        e.next == old(e.next) && e.prev == old(e.prev)
      requires b == Slot(e.key) && e !in old(Repr) && i < |old(ages)| && |old(chains[b])| > 0
      requires old(ages)[i] == old(chains[b])[|old(chains[b])| - 1]
      requires chains[b] == [e] + Without(old(chains[b]), |old(chains[b])| - 1)
      requires Distinct(chains[b]) && Chained(chains[b]) && buckets[b] == At(chains[b], 0) && counts[b] == |chains[b]|
      requires Repr == old(Repr) - {old(ages)[i]} + {e} && ages == Without(old(ages), i) + [e] && items == |ages| &&
        AgesOk()
      ensures Valid()
    {
      assert old(BucketAt(b)) && old(AgesOk());
      NotInWithout(old(chains[b]), |old(chains[b])| - 1);
      NotInWithout(old(ages), i);
      FrontNodes(e, Without(old(chains[b]), |old(chains[b])| - 1));
      BackNodes(Without(old(ages), i), e);
      ChainChanged(b, {old(ages)[i]}, {e});
    }

    lemma ReadyToPlace(b: nat, e: Entry) returns (i: nat)
      requires Valid() && b < size && e !in Repr && !HasKey(Contents(), e.key)
      ensures buckets[b] == At(chains[b], 0) && counts[b] == |chains[b]| && Distinct(chains[b]) && Chained(chains[b]) &&
        e !in chains[b]
      ensures Nodes(chains[b]) <= Repr && Nodes(ages) == Repr && e !in ages && forall j: nat {:trigger ages[j]} ::
        j < |ages| ==> ages[j].key != e.key
      ensures Full(b) ==>
        && i < |ages| && chains[b] != [] && ages[i] == chains[b][|chains[b]| - 1]
        && Removed(Contents(), ages[i].key) == Without(Contents(), i)
    {
      assert BucketAt(b);
      NoSuchKey(e.key);
      assert e !in Nodes(chains[b]) && e !in Nodes(ages);
      i := 0;
      if Full(b) {
        assert chains[b][|chains[b]| - 1] in Nodes(chains[b]);
        i := AgeOf(chains[b][|chains[b]| - 1]);
        PairOf(ages[i], i);
      }
    }

    method LinkIn(b: nat, e: Entry, ghost i: nat) returns (evicted: Option<Pair>)
      requires b < |chains| == buckets.Length == counts.Length && buckets[b] == At(chains[b], 0) &&
        counts[b] == |chains[b]|
      requires Distinct(chains[b]) && Chained(chains[b]) && e !in chains[b]
      requires AgesOk() && e !in ages && e.newer == null && forall j: nat {:trigger ages[j]} :: j < |ages| ==>
        ages[j].key != e.key
      requires Full(b) ==> i < |ages| && ages[i] == chains[b][|chains[b]| - 1]
      modifies buckets, counts, this`oldest, this`newest, this`ages, this`chains, this`freed, this`items, this`Repr
      modifies Nodes(chains[b])`next, Nodes(chains[b])`prev, Nodes(ages)`older, Nodes(ages)`newer, e`next, e`prev,
        e`older
      ensures old(Full(b)) ==>
        && chains == old(chains)[b := [e] + Without(old(chains[b]), |old(chains[b])| - 1)]
        && ages == Without(old(ages), i) + [e] && freed == old(freed) + [old(ages)[i]] &&
          Repr == old(Repr) - {old(ages)[i]} + {e}
        && evicted == Some(Pair(old(ages)[i].key, old(ages)[i].data)) && items == old(items) &&
          counts[b] == old(counts[b])
      ensures !old(Full(b)) ==>
        && chains == old(chains)[b := [e] + old(chains[b])] && ages == old(ages) + [e] && freed == old(freed) &&
          Repr == old(Repr) + {e}
        && evicted == None && items == old(items) + 1 && counts[b] == old(counts[b]) + 1
      ensures Distinct(chains[b]) && Chained(chains[b]) && buckets[b] == At(chains[b], 0) && AgesOk()
      ensures forall c: nat {:trigger BucketKept(c)} :: c < |chains| && c != b ==> BucketKept(c)
    {
      evicted := Link(b, e, i);
      Repr := if old(Full(b)) then Repr - {old(ages)[i]} + {e} else Repr + {e};
    }

    twostate lemma Placed(new b: nat, e: Entry, new i: nat)
      requires old(Valid()) && b < size == old(size) && buckets == old(buckets) && counts == old(counts) &&
        |chains| == |old(chains)| == size
      requires forall c: nat {:trigger BucketKept(c)} :: c < size && c != b ==> BucketKept(c)
      requires forall e: Entry {:trigger e.next} {:trigger e.prev} :: e in old(Repr) && e !in Nodes(old(chains[b])) ==>
        e.next == old(e.next) && e.prev == old(e.prev)
      requires b == Slot(e.key) && e !in old(Repr) && b < |old(chains)| == old(counts.Length)
      requires forall x: Entry {:trigger x.data} :: x in old(Repr) ==> x.data == old(x.data)
      requires old(Full(b)) ==>
        && i < |old(ages)| && |old(chains[b])| > 0 && old(ages)[i] == old(chains[b])[|old(chains[b])| - 1]
        && chains[b] == [e] + Without(old(chains[b]), |old(chains[b])| - 1)
        && Repr == old(Repr) - {old(ages)[i]} + {e} && ages == Without(old(ages), i) + [e]
      requires !old(Full(b)) ==> chains[b] == [e] + old(chains[b]) && Repr == old(Repr) + {e} && ages == old(ages) + [e]
      requires Distinct(chains[b]) && Chained(chains[b]) && buckets[b] == At(chains[b], 0) &&
        counts[b] == |chains[b]| && items == |ages| && AgesOk()
      ensures Valid()
      ensures Contents() == (if old(Full(b)) then Without(old(Contents()), i)
        else old(Contents())) + [Pair(e.key, e.data)]
    {
      if old(Full(b)) {
        PairsEvicted(i, e);
        ShiftedChain(b, e, i);
      } else {
        PairsAdded(e);
        LongerChain(b, e);
      }
    }

    /** Places a new entry first in its chain and last by age; a full bucket loses its last entry. */
    method Place(b: nat, e: Entry) returns (evicted: Option<Pair>)
      requires Valid() && b == Slot(e.key) && e !in Repr && e.newer == null && !HasKey(Contents(), e.key)
      modifies this`oldest, this`newest, this`ages, this`chains, this`freed, this`items, this`Repr
      modifies buckets, counts, Repr`next, Repr`prev, Repr`older, Repr`newer, e`next, e`prev, e`older
      ensures Valid() && (old(WithinLimit()) ==> WithinLimit())
      ensures old(Full(b)) ==>
        && var last := At(old(chains[b]), |old(chains[b])| - 1);
        && last != null
        && chains == old(chains)[b := [e] + Without(old(chains[b]), |old(chains[b])| - 1)]
        && Repr == old(Repr) - {last} + {e} && freed == old(freed) + [last] &&
          evicted == Some(Pair(last.key, last.data))
        && Contents() == Removed(old(Contents()), last.key) + [Pair(e.key, e.data)]
      ensures !old(Full(b)) ==>
        && chains == old(chains)[b := [e] + old(chains[b])]
        && Repr == old(Repr) + {e} && freed == old(freed) && evicted == None
        && Contents() == old(Contents()) + [Pair(e.key, e.data)]
    {
      ghost var i := ReadyToPlace(b, e);
      evicted := LinkIn(b, e, i);
      Placed(b, e, i);
    }

    lemma NoSuchKey(key: Key)
      requires !HasKey(Contents(), key)
      ensures forall i: nat {:trigger ages[i]} :: i < |ages| ==> ages[i].key != key
    {
      forall i: nat {:trigger ages[i]} | i < |ages| ensures ages[i].key != key {
        assert Contents()[i].key != key;
      }
    }

    twostate lemma PairsAdded(e: Entry)
      requires ages == old(ages) + [e]
      requires forall x: Entry {:trigger x.data} :: x in Nodes(old(ages)) ==> x.data == old(x.data)
      ensures Contents() == old(Contents()) + [Pair(e.key, e.data)]
    {
      forall j: nat {:trigger Contents()[j]} | j < |old(ages)| ensures Contents()[j] == old(Contents())[j] {
        assert old(ages)[j] in Nodes(old(ages));
      }
    }

    twostate lemma PairsEvicted(new i: nat, e: Entry)
      requires i < |old(ages)| && ages == Without(old(ages), i) + [e]
      requires forall x: Entry {:trigger x.data} :: x in Nodes(old(ages)) ==> x.data == old(x.data)
      ensures Contents() == Without(old(Contents()), i) + [Pair(e.key, e.data)]
    {
      forall j: nat {:trigger Contents()[j]} | j < |ages| - 1 ensures Contents()[j] == Without(old(Contents()), i)[j] {
        var x := ages[j];
        assert x == old(ages)[if j < i then j else j + 1] && x in Nodes(old(ages));
      }
    }

    // ---------- iteration ----------

    method First() returns (it: Iterator, data: Data)
      requires Valid()
      ensures it == Iterator(At(ages, 0), At(ages, 1))
      ensures data == if ages == [] then 0 else ages[0].data
    {
      if oldest != null {
        assert AgeAt(ages, 0);
        it, data := Iterator(oldest, oldest.newer), oldest.data;
      } else {
        it, data := Iterator(null, null), 0;
      }
    }

    /** Steps to the neighbour that was remembered when the current entry was visited. */
    method Next(it: Iterator, ghost n: nat) returns (next: Iterator, data: Data)
      requires Valid() && it.next == At(ages, n)
      ensures next == Iterator(At(ages, n), At(ages, n + 1))
      ensures data == if n < |ages| then ages[n].data else 0
    {
      if it.next != null {
        assert AgeAt(ages, n);
        next, data := Iterator(it.next, it.next.newer), it.next.data;
      } else {
        next, data := Iterator(null, null), 0;
      }
    }

    // ---------- freeing and rehashing ----------

    /** Frees the entries of one chain. */
    method FreeEntryChain(first: Entry?, ghost s: seq<Entry>)
      requires Chained(s) && first == At(s, 0)
      modifies this`freed
      ensures freed == old(freed) + s
    {
      var e, k := first, 0;
      while e != null
        invariant Chained(s) && k <= |s| && e == At(s, k) && freed == old(freed) + s[..k]
        decreases |s| - k
      {
        assert ChainAt(s, k);
        var next := e.next;
        freed := freed + [e];
        e, k := next, k + 1;
      }
    }

    /** Frees the entries of one bucket and empties it. */
    method FreeBucket(b: nat)
      requires b < |chains| == buckets.Length && buckets[b] == At(chains[b], 0) && Chained(chains[b])
      modifies this`freed, buckets
      ensures freed == old(freed) + chains[b] && buckets[b] == null
      ensures forall c: nat {:trigger buckets[c]} :: c < buckets.Length && c != b ==> buckets[c] == old(buckets[c])
    {
      if buckets[b] != null {
        FreeEntryChain(buckets[b], chains[b]);
        buckets[b] := null;
      }
    }

    /** Frees every entry, bucket by bucket: each of them once. */
    method FreeAll() returns (ghost released: seq<Entry>)
      requires Valid()
      modifies this`freed, buckets
      ensures freed == old(freed) + released && Distinct(released) && Nodes(released) == Repr
      ensures forall b: nat {:trigger buckets[b]} :: b < size ==> buckets[b] == null
    {
      FlatCovers();
      released := Flat(chains, size);
      var i := 0;
      while i < size
        invariant i <= size && freed == old(freed) + Flat(chains, i)
        invariant forall b: nat {:trigger buckets[b]} :: b < size ==> buckets[b] == if b < i then null
          else old(buckets[b])
      {
        assert old(BucketAt(i));
        FreeBucket(i);
        i := i + 1;
      }
    }

    /** Walking the buckets meets every entry exactly once. */
    lemma FlatCoversBelow(n: nat)
      requires Valid() && n <= size
      ensures Distinct(Flat(chains, n)) && Nodes(Flat(chains, n)) <= Repr
      ensures forall e: Entry {:trigger e in Nodes(Flat(chains, n))} :: e in Repr ==>
        (e in Nodes(Flat(chains, n)) <==> Slot(e.key) < n)
    {
      if n > 0 {
        FlatCoversBelow(n - 1);
        var f, s := Flat(chains, n - 1), chains[n - 1];
        assert BucketAt(n - 1);
        forall e: Entry | e in Nodes(s) ensures e in Repr && Slot(e.key) == n - 1 && e !in Nodes(f) {
        }
        DistinctJoin(f, s);
        forall e: Entry {:trigger e in Nodes(f + s)} | e in Repr ensures e in Nodes(f + s) <==> Slot(e.key) < n {
          assert EntryAt(e);
          assert e in Nodes(f) <==> Slot(e.key) < n - 1;
          assert e in Nodes(s) <==> Slot(e.key) == n - 1;
        }
      }
    }

    lemma FlatCovers()
      requires Valid()
      ensures Distinct(Flat(chains, size)) && Nodes(Flat(chains, size)) == Repr
    {
      FlatCoversBelow(size);
    }

    /** Inserting a new key into a table without a limit that does not grow. */
    method Append(key: Key, data: Data)
      requires Valid() && !automaticRehash && bucketLimit == 0 && !HasKey(Contents(), key)
      modifies this, buckets, counts, Repr`next, Repr`prev, Repr`older, Repr`newer
      ensures Valid() && !automaticRehash && bucketLimit == 0 && Contents() == old(Contents()) + [Pair(key, data)]
      ensures fresh(Repr - old(Repr)) && buckets == old(buckets) && counts == old(counts) && size == old(size)
      decreases 0, 4
    {
      ghost var chain;
      var status, evicted;
      status, evicted, chain := Insert(key, data, true);
    }

    method CopyOne(tmp: HashTable, it: Iterator, ghost n: nat) returns (next: Iterator, p: Data)
      requires Valid() && n < |ages| && it == Iterator(ages[n], At(ages, n + 1))
      requires tmp.Valid() && !tmp.automaticRehash && tmp.bucketLimit == 0 && tmp.Contents() == Contents()[..n]
      requires tmp != this && tmp.buckets != buckets && tmp.counts != counts && tmp.Repr !! Repr
      modifies tmp, tmp.buckets, tmp.counts, tmp.Repr`next, tmp.Repr`prev, tmp.Repr`older, tmp.Repr`newer
      ensures tmp.Valid() && !tmp.automaticRehash && tmp.bucketLimit == 0 && tmp.Contents() == old(Contents())[..n + 1]
      ensures Valid() && Contents() == old(Contents()) && tmp.Repr !! Repr
      ensures next == Iterator(At(ages, n + 1), At(ages, n + 2)) && p == if n + 1 < |ages| then ages[n + 1].data else 0
      ensures fresh(tmp.Repr - old(tmp.Repr)) && tmp.buckets == old(tmp.buckets) && tmp.counts == old(tmp.counts) &&
        tmp.size == old(tmp.size)
      decreases 0, 5
    {
      ContentsUnique();
      NotYetCopied(Contents(), n);
      tmp.Append(it.entry.key, it.entry.data);
      next, p := Next(it, n + 1);
    }

    /** Walks the table from the oldest entry and inserts what it meets into another table; a NULL data pointer ends the
        walk. */
    method CopyInto(tmp: HashTable)
      requires Valid() && tmp.Valid() && tmp != this && tmp.buckets != buckets && tmp.counts != counts &&
        tmp.Repr == {} && tmp.Contents() == []
      requires !tmp.automaticRehash && tmp.bucketLimit == 0
      modifies tmp, tmp.buckets, tmp.counts
      ensures tmp.Valid() && tmp.Contents() == Kept(Contents()) && fresh(tmp.Repr)
      ensures tmp.buckets == old(tmp.buckets) && tmp.counts == old(tmp.counts) && tmp.size == old(tmp.size)
      decreases 1, 0
    {
      ContentsUnique();
      var it, p := First();
      ghost var n := 0;
      while p != 0
        invariant Valid() && Contents() == old(Contents()) && n <= |ages| && tmp.Valid()
        invariant it == Iterator(At(ages, n), At(ages, n + 1)) && p == (if n < |ages| then ages[n].data else 0)
        invariant tmp.Contents() == Contents()[..n] && forall i: nat {:trigger Contents()[i]} :: i < n ==>
          Contents()[i].data != 0
        invariant fresh(tmp.Repr) && tmp.Repr !! Repr && !tmp.automaticRehash && tmp.bucketLimit == 0
        invariant tmp.buckets == old(tmp.buckets) && tmp.counts == old(tmp.counts) && tmp.size == old(tmp.size)
        decreases |ages| - n
      {
        it, p := CopyOne(tmp, it, n);
        n := n + 1;
      }
      KeptUpTo(Contents(), n);
    }

    /** Rebuilds the table with another number of buckets. The limit holds afterwards exactly when no new bucket has
        more
        of the kept keys hashing to it; with no fewer buckets than before a limit that held is kept. */
    method Rehash(requested: nat) returns (ghost released: seq<Entry>)
      requires Valid() && requested <= 0x4000_0000
      modifies this, buckets
      ensures Valid() && fresh(buckets) && fresh(counts) && fresh(Repr)
      ensures Contents() == Kept(old(Contents()))
      ensures requested <= size && IsPowerOfTwo(size) && (size > 1 ==> size < 2 * requested)
      ensures freed == old(freed) + released && Distinct(released) && Nodes(released) == old(Repr)
      ensures automaticRehash == old(automaticRehash) && bucketLimit == old(bucketLimit) &&
        heuristics == old(heuristics)
      ensures old(WithinLimit()) && old(size) <= size ==> WithinLimit()
      ensures WithinLimit() <==> Fits(hash, Kept(old(Contents())), size, bucketLimit)
      decreases 1, 3
    {
      released := RebuildWithin(requested);
      WithinLimitIff();
    }

    /** Rebuilding with no fewer buckets keeps the limit. */
    method RebuildWithin(requested: nat) returns (ghost released: seq<Entry>)
      requires Valid() && requested <= 0x4000_0000
      modifies this, buckets
      ensures Valid() && fresh(buckets) && fresh(counts) && fresh(Repr)
      ensures Contents() == Kept(old(Contents()))
      ensures requested <= size && IsPowerOfTwo(size) && (size > 1 ==> size < 2 * requested)
      ensures freed == old(freed) + released && Distinct(released) && Nodes(released) == old(Repr)
      ensures automaticRehash == old(automaticRehash) && bucketLimit == old(bucketLimit) &&
        heuristics == old(heuristics)
      ensures old(WithinLimit()) && old(size) <= size ==> WithinLimit()
      decreases 1, 2
    {
      ghost var d, m, before, limit := Contents(), size, chains, bucketLimit;
      ChainCounts();
      released := Rebuild(requested);
      ChainCounts();
      if m <= size && old(WithinLimit()) {
        PowersDivide(m, size);
        NoLonger(hash, d, m, before, size, chains, limit);
      }
    }

    method Rebuild(requested: nat) returns (ghost released: seq<Entry>)
      requires Valid() && requested <= 0x4000_0000
      modifies this, buckets
      ensures Valid() && fresh(buckets) && fresh(counts) && fresh(Repr)
      ensures Contents() == Kept(old(Contents()))
      ensures requested <= size && IsPowerOfTwo(size) && (size > 1 ==> size < 2 * requested)
      ensures freed == old(freed) + released && Distinct(released) && Nodes(released) == old(Repr)
      ensures automaticRehash == old(automaticRehash) && bucketLimit == old(bucketLimit) &&
        heuristics == old(heuristics)
      decreases 1, 1
    {
      var tmp := new HashTable(hash, requested);
      CopyInto(tmp);
      released := ReplaceBy(tmp);
    }

    /** Frees the old entries and takes the other table's place. */
    method ReplaceBy(tmp: HashTable) returns (ghost released: seq<Entry>)
      requires Valid() && tmp.Valid() && tmp != this && tmp.hash == hash && tmp.buckets != buckets && tmp.Repr !! Repr
      modifies this`size, this`items, this`buckets, this`counts, this`oldest, this`newest, this`chains, this`ages,
        this`Repr, this`freed, buckets
      ensures Valid() && Contents() == old(tmp.Contents())
      ensures size == tmp.size && buckets == tmp.buckets && counts == tmp.counts && Repr == tmp.Repr
      ensures freed == old(freed) + released && Distinct(released) && Nodes(released) == old(Repr)
    {
      released := FreeAll();
      TakeOver(tmp);
    }

    method TakeOver(tmp: HashTable)
      requires tmp.Valid() && tmp != this && tmp.hash == hash
      modifies this`size, this`items, this`buckets, this`counts, this`oldest, this`newest, this`chains, this`ages,
        this`Repr
      ensures Valid() && Contents() == tmp.Contents()
      ensures size == tmp.size && buckets == tmp.buckets && counts == tmp.counts && Repr == tmp.Repr
    {
      size, items := tmp.size, tmp.items;
      buckets, counts := tmp.buckets, tmp.counts;
      oldest, newest := tmp.oldest, tmp.newest;
      chains, ages, Repr := tmp.chains, tmp.ages, tmp.Repr;
      SameTable(tmp);
    }

    twostate lemma SameTable(tmp: HashTable)
      requires old(tmp.Valid()) && unchanged(tmp, old(tmp.buckets), old(tmp.counts), old(tmp.Repr))
      requires tmp.hash == hash && size == tmp.size && items == tmp.items && buckets == tmp.buckets &&
        counts == tmp.counts
      requires oldest == tmp.oldest && newest == tmp.newest && chains == tmp.chains && ages == tmp.ages &&
        Repr == tmp.Repr
      ensures Valid() && Contents() == tmp.Contents()
    {
      forall b: nat {:trigger BucketAt(b)} | b < size ensures BucketAt(b) {
        assert tmp.BucketAt(b);
        forall e: Entry {:trigger e in Nodes(chains[b])} | e in Nodes(chains[b]) ensures Slot(e.key) == b {
          assert e in Nodes(tmp.chains[b]) && tmp.Slot(e.key) == b;
        }
      }
      forall e: Entry {:trigger EntryAt(e)} | e in Repr ensures EntryAt(e) {
        assert tmp.EntryAt(e) && tmp.Slot(e.key) == Slot(e.key);
      }
    }

    /** Whether an insertion doubles the table first. */
    predicate Grows()
      reads this`automaticRehash, this`items, this`size
    {
      automaticRehash && items > 2 * size
    }

    /** With automatic rehash, never more than twice as many entries as buckets, and one. */
    ghost predicate Sparse()
      reads this`automaticRehash, this`items, this`size
    {
      automaticRehash ==> items <= 2 * size + 1
    }

    /** The pairs a new one is added to: rehashing keeps those before the first NULL data pointer. */
    ghost function Base(): seq<Pair>
      reads this, Nodes(ages)
    {
      if Grows() then Kept(Contents()) else Contents()
    }

    /** Doubles a crowded table; the key's bucket is computed again. */
    method GrowFor(key: Key) returns (slot: nat, ghost released: seq<Entry>)
      requires Valid() && Grows() && !HasKey(Contents(), key) && 2 * size <= 0x4000_0000
      modifies this, buckets
      ensures Valid() && slot == Slot(key) && Contents() == old(Base()) && !HasKey(Contents(), key)
      ensures old(WithinLimit()) ==> WithinLimit()
      ensures automaticRehash == old(automaticRehash) && bucketLimit == old(bucketLimit) &&
        heuristics == old(heuristics)
      ensures fresh(buckets) && fresh(counts) && fresh(Repr) && size == 2 * old(size)
      ensures freed == old(freed) + released && Distinct(released) && Nodes(released) == old(Repr)
      decreases if automaticRehash then 2 else 0, 0
    {
      AbsentFromKept(Contents(), key);
      released := RebuildWithin(2 * size);
      DoublePower(old(size), size);
      slot := Slot(key);
    }

    /** No bucket holds more than the limit. */
    ghost predicate WithinLimit()
      reads this`bucketLimit, this`chains
    {
      bucketLimit != 0 ==> forall b: nat {:trigger chains[b]} :: b < |chains| ==> |chains[b]| <= bucketLimit
    }

    /** Every chain is as long as there are keys that hash to its bucket. */
    lemma ChainCounts()
      requires Valid()
      ensures Counted(hash, Contents(), size, chains)
    {
      forall c: nat {:trigger chains[c]} | c < size ensures |chains[c]| == Crowd(hash, Contents(), size, c) {
        ChainKeys(c);
        KeysCount(KeysIn(chains[c]));
      }
    }

    /** A bucket counts as full exactly when as many keys of the contents hash to it as the limit allows. */
    lemma FullIff(key: Key)
      requires Valid()
      ensures Slot(key) < size && (Full(Slot(key)) <==> IsCrowded(hash, Contents(), size, bucketLimit, key))
    {
      assert BucketAt(Slot(key));
      ChainCounts();
      assert |chains[Slot(key)]| == Crowd(hash, Contents(), size, Slot(key));
    }

    /** The limit is kept exactly when no bucket has more keys hashing to it. */
    lemma WithinLimitIff()
      requires Valid()
      ensures WithinLimit() <==> Fits(hash, Contents(), size, bucketLimit)
    {
      ChainCounts();
      forall c: nat {:trigger Crowd(hash, Contents(), size, c)} {:trigger chains[c]} | c < size
        ensures |chains[c]| == Crowd(hash, Contents(), size, c) {
      }
    }

    lemma ChainKeys(c: nat)
      requires Valid() && c < size
      ensures (set k: Key | k in KeysIn(chains[c])) == (set k: Key | k in KeysOf(Contents()) && hash(k) % size == c)
      ensures forall i: nat, j: nat {:trigger KeysIn(chains[c])[i], KeysIn(chains[c])[j]} :: i < j < |chains[c]| ==>
        KeysIn(chains[c])[i] != KeysIn(chains[c])[j]
    {
      var s := chains[c];
      assert BucketAt(c);
      forall k: Key | k in KeysIn(s) ensures k in KeysOf(Contents()) && hash(k) % size == c {
        var i :| 0 <= i < |s| && KeysIn(s)[i] == k;
        assert s[i] in Nodes(s);
        assert Contents()[AgeOf(s[i])].key == k;
      }
      forall k: Key | k in KeysOf(Contents()) && hash(k) % size == c ensures k in KeysIn(s) {
        var p :| 0 <= p < |ages| && Contents()[p].key == k;
        assert ages[p] in Nodes(ages) && EntryAt(ages[p]);
        var i :| 0 <= i < |s| && s[i] == ages[p];
        assert KeysIn(s)[i] == k;
      }
      forall i: nat, j: nat {:trigger KeysIn(s)[i], KeysIn(s)[j]} | i < j < |s| ensures KeysIn(s)[i] != KeysIn(s)[j] {
        assert s[i] in Nodes(s) && s[j] in Nodes(s) && s[i] != s[j];
        var p, q := AgeOf(s[i]), AgeOf(s[j]);
        assert ages[p].key != ages[q].key;
      }
    }

    /** The key's chain has the new entry in front of what was `chain`, which has lost its last entry if one was
        evicted. */
    ghost predicate InFrontOf(key: Key, chain: seq<Entry>, evicted: Option<Pair>)
      requires size > 0
      reads this`size, this`chains
    {
      && Slot(key) < |chains| && (evicted.Some? ==> chain != [])
      && var s := chains[Slot(key)];
      && s != [] && s[0].key == key && s[1..] == if evicted.Some? then chain[..|chain| - 1] else chain
    }

    /** Places a new entry in a table that is doubled first. */
    method InsertGrown(e: Entry) returns (evicted: Option<Pair>, ghost chain: seq<Entry>, ghost released: seq<Entry>)
      requires Valid() && e !in Repr && e.newer == null && !HasKey(Contents(), e.key)
      requires Grows() && 2 * size <= 0x4000_0000
      modifies this, buckets, e`next, e`prev, e`older
      ensures Valid() && fresh(Repr - {e}) && (old(WithinLimit()) ==> WithinLimit())
      ensures automaticRehash == old(automaticRehash) && bucketLimit == old(bucketLimit) &&
        heuristics == old(heuristics)
      ensures Contents() == Added(old(Base()), evicted, Pair(e.key, e.data))
      ensures evicted.Some? <==> IsCrowded(hash, old(Base()), size, bucketLimit, e.key)
      ensures EvictsLast(evicted, chain, old(Base())) && InFrontOf(e.key, chain, evicted)
      ensures evicted.Some? ==> Slot(evicted.value.key) == Slot(e.key)
      ensures fresh(buckets) && fresh(counts) && size == 2 * old(size)
      ensures freed == old(freed) + released + LastOf(evicted, chain) && Distinct(released) &&
        Nodes(released) == old(Repr)
      decreases if automaticRehash then 2 else 0, 1
    {
      var b;
      b, released := GrowFor(e.key);
      evicted, chain := PlaceNew(b, e);
    }

    /** Places a new entry; a crowded table is doubled first. */
    method InsertNew(slot: nat, e: Entry) returns (evicted: Option<Pair>, ghost chain: seq<Entry>)
      requires Valid() && slot == Slot(e.key) && e !in Repr && e.newer == null && !HasKey(Contents(), e.key) &&
        (Grows() ==> 2 * size <= 0x4000_0000)
      modifies this, buckets, counts, Repr`next, Repr`prev, Repr`older, Repr`newer, e`next, e`prev, e`older
      ensures Valid() && fresh(Repr - old(Repr) - {e}) && (old(WithinLimit()) ==> WithinLimit())
      ensures automaticRehash == old(automaticRehash) && bucketLimit == old(bucketLimit) &&
        heuristics == old(heuristics)
      ensures Contents() == Added(old(Base()), evicted, Pair(e.key, e.data))
      ensures evicted.Some? <==> IsCrowded(hash, old(Base()), size, bucketLimit, e.key)
      ensures EvictsLast(evicted, chain, old(Base())) && InFrontOf(e.key, chain, evicted)
      ensures evicted.Some? ==> Slot(evicted.value.key) == Slot(e.key)
      ensures !old(Grows()) ==>
        size == old(size) && buckets == old(buckets) && counts == old(counts)
      ensures !old(Grows()) ==> chain == old(chains[slot])
      ensures old(Grows()) ==> fresh(buckets) && fresh(counts) && size == 2 * old(size)
      ensures FreedBy(old(freed), freed, old(Grows()), old(Repr), LastOf(evicted, chain))
      decreases if automaticRehash then 2 else 0, 2
    {
      ghost var before, all := freed, Repr;
      if automaticRehash && items > 2 * size {
        ghost var released;
        evicted, chain, released := InsertGrown(e);
        FreedTogether(before, released, freed, LastOf(evicted, chain), true, all);
      } else {
        evicted, chain := PlaceNew(slot, e);
        FreedTogether(before, [], freed, LastOf(evicted, chain), false, all);
      }
    }

    /** What placing an entry does to the pairs of the table. */
    method PlaceNew(b: nat, e: Entry) returns (evicted: Option<Pair>, ghost chain: seq<Entry>)
      requires Valid() && b == Slot(e.key) && e !in Repr && e.newer == null && !HasKey(Contents(), e.key)
      modifies this`oldest, this`newest, this`ages, this`chains, this`freed, this`items, this`Repr
      modifies buckets, counts, Repr`next, Repr`prev, Repr`older, Repr`newer, e`next, e`prev, e`older
      ensures Valid() && Repr <= old(Repr) + {e} && (old(WithinLimit()) ==> WithinLimit())
      ensures evicted.Some? == old(Full(b)) && chain == old(chains[b])
      ensures evicted.Some? == old(IsCrowded(hash, Contents(), size, bucketLimit, e.key))
      ensures EvictsLast(evicted, chain, old(Contents())) && InFrontOf(e.key, chain, evicted) &&
        (evicted.Some? ==> Slot(evicted.value.key) == b)
      ensures Contents() == Added(old(Contents()), evicted, Pair(e.key, e.data))
      ensures freed == old(freed) + LastOf(evicted, chain)
    {
      chain := chains[b];
      FullIff(e.key);
      if Full(b) { LastIsPair(b); }
      evicted := Place(b, e);
    }

    /** The last entry of a full bucket is a pair of the table. */
    lemma LastIsPair(b: nat)
      requires Valid() && b < size && Full(b)
      ensures chains[b] != []
      ensures var e := chains[b][|chains[b]| - 1]; Lookup(Contents(), e.key) == Some(e.data) && Slot(e.key) == b
    {
      assert BucketAt(b);
      var e := chains[b][|chains[b]| - 1];
      assert e in Nodes(chains[b]);
      PairOf(e, AgeOf(e));
    }

    /** Inserts a pair unless the key is there already; a bucket that is full loses its last pair to the callback.
        `chain` is the key's chain before that, in the table as it was or as the rehash left it. */
    method Insert(key: Key, data: Data, memory: bool)
            returns (status: InsertStatus, evicted: Option<Pair>, ghost chain: seq<Entry>)
      requires Valid() && (Grows() ==> 2 * size <= 0x4000_0000)
      modifies this, buckets, counts, Repr`next, Repr`prev, Repr`older, Repr`newer
      ensures Valid() && fresh(Repr - old(Repr)) && (old(WithinLimit()) ==> WithinLimit())
      ensures automaticRehash == old(automaticRehash) && bucketLimit == old(bucketLimit) &&
        heuristics == old(heuristics)
      ensures status == if HasKey(old(Contents()), key) then AlreadyInHash else if memory then Ok else OutOfMemory
      ensures status != Ok ==>
        evicted == None && Contents() == old(Contents()) && chains == old(chains) && freed == old(freed)
      ensures status == Ok ==> Contents() == Added(old(Base()), evicted, Pair(key, data))
      ensures evicted.Some? <==> status == Ok && IsCrowded(hash, old(Base()), size, bucketLimit, key)
      ensures status == Ok ==> EvictsLast(evicted, chain, old(Base())) && InFrontOf(key, chain, evicted)
      ensures status == Ok && evicted.Some? ==> Slot(evicted.value.key) == Slot(key)
      ensures status == Ok && !old(Grows()) ==> chain == old(chains[Slot(key)])
      ensures !(status == Ok && old(Grows())) ==> size == old(size) && buckets == old(buckets) && counts == old(counts)
      ensures status == Ok && old(Grows()) ==> fresh(buckets) && fresh(counts) && size == 2 * old(size)
      ensures status == Ok ==> FreedBy(old(freed), freed, old(Grows()), old(Repr), LastOf(evicted, chain))
      ensures old(Grows()) <==> old(automaticRehash) && |old(Contents())| > 2 * old(size)
      ensures old(Sparse()) ==> Sparse()
      decreases if automaticRehash then 2 else 0, 3
    {
      ghost var d := Contents();
      var b := Slot(key);
      var found, k := SearchInBucket(b, key);
      FoundOrAbsent(key, k);
      if found != null {
        return AlreadyInHash, None, [];
      }
      if !memory {
        return OutOfMemory, None, [];
      }
      var e := new Entry(key, data);
      evicted, chain := InsertNew(b, e);
      AddedAtMost(d, old(Grows()), evicted, Pair(key, data));
      status := Ok;
    }
  }

  /** At most one pair more. */
  lemma AddedAtMost(d: seq<Pair>, grew: bool, evicted: Option<Pair>, p: Pair)
    ensures |Added(if grew then Kept(d) else d, evicted, p)| <= |d| + 1
  {
    KeptPrefix(d);
    if evicted.Some? { RemovedShorter(if grew then Kept(d) else d, evicted.value.key); }
  }

  /** Where a key is first in a chain, or the length of the chain. */
  function IndexOf(s: seq<Entry>, key: Key): (k: nat)
    ensures k <= |s| && (k < |s| ==> s[k].key == key)
  {
    if s == [] || s[0].key == key then 0 else 1 + IndexOf(s[1..], key)
  }

  lemma {:induction false} IndexIs(s: seq<Entry>, key: Key, k: nat)
    requires k <= |s| && (k < |s| ==> s[k].key == key)
    requires forall i: nat {:trigger s[i]} :: i < k ==> s[i].key != key
    ensures IndexOf(s, key) == k
  {
    if k > 0 {
      assert s[0].key != key;
      assert forall i: nat {:trigger s[1..][i]} :: i < k - 1 ==> s[1..][i] == s[i + 1];
      IndexIs(s[1..], key, k - 1);
    }
  }

  /** A chain after a key has been looked up in it. */
  function Reordered(s: seq<Entry>, key: Key, heuristics: Heuristics): seq<Entry> {
    var k := IndexOf(s, key);
    if k == |s| then s
    else match heuristics
      case NoHeuristics => s
      case MoveToFront => [s[k]] + Without(s, k)
      case Transpose => if k == 0 then s else Swapped(s, k)
  }

  /** An evicted pair is the last entry of the chain, and one of the pairs of `d`. */
  ghost predicate EvictsLast(evicted: Option<Pair>, chain: seq<Entry>, d: seq<Pair>)
    reads Nodes(chain)`data
  {
    evicted.Some? ==>
      && chain != [] && Lookup(d, evicted.value.key) == Some(evicted.value.data)
      && var last := chain[|chain| - 1];
      && last in Nodes(chain) && evicted.value == Pair(last.key, last.data)
  }

  /** The power of two that is reached from twice another one is that double. */
  lemma DoublePower(m: nat, n: nat)
    requires IsPowerOfTwo(m) && IsPowerOfTwo(n) && 2 * m <= n && (n > 1 ==> n < 2 * (2 * m))
    ensures n == 2 * m
  {
    OnePowerBetween(2 * m, n);
  }

  /** The entry that was evicted: the last one of the chain. */
  function LastOf(evicted: Option<Pair>, chain: seq<Entry>): seq<Entry> {
    if evicted.Some? && chain != [] then [chain[|chain| - 1]] else []
  }

  /** The entries released by an insertion: each entry of the old table once when the table grew, then the evicted
      one. */
  ghost predicate FreedBy(before: seq<Entry>, now: seq<Entry>, grown: bool, all: set<Entry>, last: seq<Entry>) {
    && |before| + |last| <= |now| && now[..|before|] == before && now[|now| - |last|..] == last
    && var released := now[|before|..|now| - |last|];
    if grown then Distinct(released) && Nodes(released) == all else released == []
  }

  lemma FreedTogether(before: seq<Entry>, released: seq<Entry>, now: seq<Entry>, last: seq<Entry>, grown: bool,
          all: set<Entry>)
    requires now == before + released + last
    requires if grown then Distinct(released) && Nodes(released) == all else released == []
    ensures FreedBy(before, now, grown, all, last)
  {
    assert now[..|before|] == before && now[|now| - |last|..] == last && now[|before|..|now| - |last|] == released;
  }

  function KeysOf(d: seq<Pair>): set<Key> {
    set i | 0 <= i < |d| :: d[i].key
  }

  function KeysIn(s: seq<Entry>): seq<Key> {
    seq(|s|, i requires 0 <= i < |s| => s[i].key)
  }

  /** How many keys of a dictionary hash to bucket `c` of a table with `n` buckets. */
  function Crowd(hash: Key -> nat, d: seq<Pair>, n: nat, c: nat): nat
    requires n > 0
  {
    |set k: Key | k in KeysOf(d) && hash(k) % n == c|
  }

  /** The bucket of the key holds as many of the pairs as the limit allows. */
  ghost predicate IsCrowded(hash: Key -> nat, d: seq<Pair>, n: nat, limit: nat, key: Key)
    requires n > 0
  {
    0 < limit <= Crowd(hash, d, n, hash(key) % n)
  }

  ghost predicate Fits(hash: Key -> nat, d: seq<Pair>, n: nat, limit: nat)
    requires n > 0
  {
    limit != 0 ==> forall c: nat {:trigger Crowd(hash, d, n, c)} :: c < n ==> Crowd(hash, d, n, c) <= limit
  }

  ghost predicate Counted(hash: Key -> nat, d: seq<Pair>, n: nat, chains: seq<seq<Entry>>)
    requires n > 0
  {
    |chains| == n && forall c: nat {:trigger chains[c]} :: c < n ==> |chains[c]| == Crowd(hash, d, n, c)
  }

  lemma {:induction false} KeysCount(s: seq<Key>)
    requires forall i: nat, j: nat {:trigger s[i], s[j]} :: i < j < |s| ==> s[i] != s[j]
    ensures |set k: Key | k in s| == |s|
  {
    if s != [] {
      var rest := s[..|s| - 1];
      KeysCount(rest);
      assert (set k: Key | k in s) == (set k: Key | k in rest) + {s[|s| - 1]};
      assert s[|s| - 1] !in rest;
    }
  }

  /** A rehash to a multiple of the number of buckets only splits buckets. */
  lemma RehashSplits(hash: Key -> nat, d: seq<Pair>, m: nat, n: nat, c: nat)
    requires m > 0 && n > 0 && n % m == 0 && c < n
    ensures Crowd(hash, Kept(d), n, c) <= Crowd(hash, d, m, c % m)
  {
    var a := set k: Key | k in KeysOf(Kept(d)) && hash(k) % n == c;
    var b := set k: Key | k in KeysOf(d) && hash(k) % m == c % m;
    KeptPrefix(d);
    forall k: Key | k in a ensures k in b {
      var i :| 0 <= i < |Kept(d)| && Kept(d)[i].key == k;
      assert d[i].key == k;
      ModOfMultiple(hash(k), m, n);
    }
    SubsetNoLarger(a, b);
  }

  lemma SubsetNoLarger(a: set<Key>, b: set<Key>)
    requires a <= b
    ensures |a| <= |b|
  {
    assert b == a + (b - a);
  }

  lemma NoLonger(hash: Key -> nat, d: seq<Pair>, m: nat, before: seq<seq<Entry>>, n: nat, after: seq<seq<Entry>>,
          limit: nat)
    requires m > 0 && n > 0 && n % m == 0 && Counted(hash, d, m, before) && Counted(hash, Kept(d), n, after)
    requires forall b: nat {:trigger before[b]} :: b < m ==> limit == 0 || |before[b]| <= limit
    ensures forall b: nat {:trigger after[b]} :: b < n ==> limit == 0 || |after[b]| <= limit
  {
    forall c: nat {:trigger after[c]} | c < n ensures limit == 0 || |after[c]| <= limit {
      RehashSplits(hash, d, m, n, c);
      assert limit == 0 || |before[c % m]| <= limit;
    }
  }

  lemma {:induction false} PowersDivide(m: nat, n: nat)
    requires IsPowerOfTwo(m) && IsPowerOfTwo(n) && m <= n
    ensures m > 0 && n % m == 0
  {
    if m > 1 {
      PowersDivide(m / 2, n / 2);
      var q := n / 2 / (m / 2);
      assert n == 2 * (n / 2) && m == 2 * (m / 2) && n / 2 == m / 2 * q;
      assert n == m * q + 0;
      RemainderUnique(n, m, q, 0);
    }
  }

  /** Masking with the larger mask first loses nothing of the smaller one. */
  lemma ModOfMultiple(h: nat, m: nat, n: nat)
    requires m > 0 && n > 0 && n % m == 0
    ensures (h % n) % m == h % m
  {
    var r := h % n;
    Divides(n, m);
    Decompose(h, n);
    Decompose(r, m);
    RemainderOfSum(h, m, n / m, h / n, r / m, r % m);
  }

  lemma Divides(n: nat, m: nat)
    requires m > 0 && n % m == 0
    ensures n == m * (n / m)
  {
  }

  lemma Decompose(h: nat, n: nat)
    requires n > 0
    ensures h == n * (h / n) + h % n
  {
  }

  lemma RemainderOfSum(h: nat, m: nat, k: nat, q: nat, p: nat, t: nat)
    requires h == m * k * q + (m * p + t) && t < m
    ensures h % m == t
  {
    assert m * k * q == m * (k * q) && m * (k * q) + m * p == m * (k * q + p);
    RemainderUnique(h, m, k * q + p, t);
  }

  lemma RemainderUnique(h: nat, m: nat, k: nat, r: nat)
    requires h == m * k + r && r < m
    ensures h % m == r
  {
    SameQuotient(m, h / m, h % m, k, r);
  }

  lemma SameQuotient(m: nat, d: nat, s: nat, k: nat, r: nat)
    requires m * d + s == m * k + r && s < m && r < m
    ensures d == k && s == r
  {
    var x := d - k;
    assert m * d - m * k == m * x && m * -x == -(m * x);
    if x >= 1 {
      Larger(m, x);
    } else if x <= -1 {
      Larger(m, -x);
    }
  }

  lemma Larger(m: nat, x: nat)
    requires x >= 1
    ensures m * x >= m
  {
  }

  lemma DistinctJoin(s: seq<Entry>, t: seq<Entry>)
    requires Distinct(s) && Distinct(t) && Nodes(s) !! Nodes(t)
    ensures Distinct(s + t) && Nodes(s + t) == Nodes(s) + Nodes(t)
  {
    forall i: nat, j: nat {:trigger (s + t)[i], (s + t)[j]} | i < j < |s + t| ensures (s + t)[i] != (s + t)[j] {
      if i < |s| <= j {
        assert s[i] in Nodes(s) && t[j - |s|] in Nodes(t);
      }
    }
    assert forall e: Entry :: e in s + t <==> e in s || e in t;
  }

  lemma AbsentFromKept(d: seq<Pair>, key: Key)
    requires !HasKey(d, key)
    ensures !HasKey(Kept(d), key)
  {
    KeptPrefix(d);
    forall i: nat {:trigger Kept(d)[i]} | i < |Kept(d)| ensures Kept(d)[i].key != key {
      assert Kept(d)[i] == d[i];
    }
  }

  lemma NotYetCopied(d: seq<Pair>, n: nat)
    requires UniqueKeys(d) && n < |d|
    ensures !HasKey(d[..n], d[n].key) && d[..n + 1] == d[..n] + [d[n]]
  {
    assert forall i: nat {:trigger d[..n][i]} :: i < n ==> d[..n][i] == d[i];
  }

  lemma {:induction false} KeptUpTo(d: seq<Pair>, n: nat)
    requires n <= |d| && (forall i: nat {:trigger d[i]} :: i < n ==> d[i].data != 0) && (n < |d| ==> d[n].data == 0)
    ensures Kept(d) == d[..n]
  {
    if n > 0 {
      KeptUpTo(d[1..], n - 1);
      assert d[..n] == [d[0]] + d[1..][..n - 1];
    }
  }

  /** The chains of the first `n` buckets in a row. */
  ghost function Flat(chains: seq<seq<Entry>>, n: nat): seq<Entry>
    requires n <= |chains|
  {
    if n == 0 then [] else Flat(chains, n - 1) + chains[n - 1]
  }

  lemma LastOfLonger(e: Entry, s: seq<Entry>)
    requires s != []
    ensures Without([e] + s, |s|) == [e] + Without(s, |s| - 1)
  {
  }

  lemma FrontNodes(e: Entry, s: seq<Entry>)
    ensures Nodes([e] + s) == {e} + Nodes(s)
  {
    assert forall x: Entry :: x in [e] + s <==> x == e || x in s;
  }

  lemma BackNodes(s: seq<Entry>, e: Entry)
    ensures Nodes(s + [e]) == Nodes(s) + {e}
  {
    assert forall x: Entry :: x in s + [e] <==> x == e || x in s;
  }

  /** A chain whose links did not change is still a chain. */
  twostate lemma ChainedKept(s: seq<Entry>)
    requires old(Chained(s))
    requires forall e: Entry {:trigger e.next} {:trigger e.prev} :: e in Nodes(s) ==>
      e.next == old(e.next) && e.prev == old(e.prev)
    ensures Chained(s)
  {
    forall i: nat {:trigger ChainAt(s, i)} | i < |s| ensures ChainAt(s, i) {
      assert old(ChainAt(s, i)) && s[i] in Nodes(s);
    }
  }

  ghost predicate DistinctKeys(s: seq<Entry>) {
    forall i: nat, j: nat {:trigger s[i], s[j]} :: i < j < |s| ==> s[i].key != s[j].key
  }

  lemma KeysApart(s: seq<Entry>, k: nat)
    requires DistinctKeys(s) && k < |s|
    ensures DistinctKeys(Without(s, k))
  {
    var t := Without(s, k);
    forall i: nat, j: nat {:trigger t[i], t[j]} | i < j < |t| ensures t[i].key != t[j].key {
      assert s[if i < k then i else i + 1].key != s[if j < k then j else j + 1].key;
    }
  }

  lemma AbsentUnchanged(d: seq<Pair>, key: Key)
    requires !HasKey(d, key)
    ensures Lookup(d, key) == None && Removed(d, key) == d
    ensures forall data: Data {:trigger Replaced(d, key, data)} :: Replaced(d, key, data) == d
  {
    LookupAbsent(d, key);
  }

  /** A power of two. */
  predicate IsPowerOfTwo(n: nat) {
    n == 1 || (n > 1 && n % 2 == 0 && IsPowerOfTwo(n / 2))
  }

  lemma {:induction false} OnePowerBetween(m: nat, n: nat)
    requires IsPowerOfTwo(m) && IsPowerOfTwo(n) && m <= n < 2 * m
    ensures n == m
  {
    if m > 1 {
      OnePowerBetween(m / 2, n / 2);
    }
  }

  /** The nearest power of two that is not below the requested size. */
  method RoundUp(requested: nat) returns (n: nat)
    requires requested <= 0x4000_0000
    ensures requested <= n && IsPowerOfTwo(n) && (n > 1 ==> n < 2 * requested) && n > 0
  {
    n := 1;
    while n < requested
      invariant IsPowerOfTwo(n) && n > 0 && (n > 1 ==> n < 2 * requested)
      decreases 2 * requested - n
    {
      n := 2 * n;
    }
  }
}
