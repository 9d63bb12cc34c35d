/** The insertion-ordered dictionary a hash table stands for, and the map it stands for in turn. */
module HashSpec {
  import opened HashLinks
  import opened Sequences
  import opened Options

  datatype Pair = Pair(key: Key, data: Data)
  datatype Heuristics = NoHeuristics | Transpose | MoveToFront
  datatype InsertStatus = Ok | AlreadyInHash | OutOfMemory

  predicate UniqueKeys(d: seq<Pair>) {
    forall i: nat, j: nat {:trigger d[i], d[j]} :: i < j < |d| ==> d[i].key != d[j].key
  }

  function Lookup(d: seq<Pair>, key: Key): Option<Data> {
    if d == [] then None else if d[0].key == key then Some(d[0].data) else Lookup(d[1..], key)
  }

  function Removed(d: seq<Pair>, key: Key): seq<Pair> {
    if d == [] then [] else if d[0].key == key then d[1..] else [d[0]] + Removed(d[1..], key)
  }

  lemma {:induction false} RemovedShorter(d: seq<Pair>, key: Key)
    ensures |Removed(d, key)| <= |d|
  {
    if d != [] { RemovedShorter(d[1..], key); }
  }

  /** A dictionary that won a pair and, if one was evicted, lost that one. */
  function Added(d: seq<Pair>, evicted: Option<Pair>, p: Pair): seq<Pair> {
    (if evicted.Some? then Removed(d, evicted.value.key) else d) + [p]
  }

  function Replaced(d: seq<Pair>, key: Key, data: Data): seq<Pair> {
    if d == [] then [] else if d[0].key == key then [Pair(key, data)] + d[1..] else [d[0]] + Replaced(d[1..], key, data)
  }

  /** The entries up to the first NULL data pointer: where a walk that stops at a NULL answer ends. */
  function Kept(d: seq<Pair>): seq<Pair> {
    if d == [] || d[0].data == 0 then [] else [d[0]] + Kept(d[1..])
  }

  predicate NoNull(d: seq<Pair>) {
    forall i: nat {:trigger d[i]} :: i < |d| ==> d[i].data != 0
  }

  lemma {:induction false} LookupAbsent(d: seq<Pair>, key: Key)
    requires forall i: nat {:trigger d[i]} :: i < |d| ==> d[i].key != key
    ensures Lookup(d, key) == None && Removed(d, key) == d
    ensures forall data: Data {:trigger Replaced(d, key, data)} :: Replaced(d, key, data) == d
  {
    if d != [] {
      assert d[0].key != key;
      assert forall i: nat {:trigger d[1..][i]} :: i < |d| - 1 ==> d[1..][i] == d[i + 1];
      LookupAbsent(d[1..], key);
    }
  }

  lemma {:induction false} LookupAtIndex(d: seq<Pair>, k: nat)
    requires UniqueKeys(d) && k < |d|
    ensures Lookup(d, d[k].key) == Some(d[k].data)
    ensures Removed(d, d[k].key) == Without(d, k)
    ensures forall data: Data {:trigger Replaced(d, d[k].key, data)} ::
      Replaced(d, d[k].key, data) == d[k := Pair(d[k].key, data)]
  {
    if k > 0 {
      assert d[0].key != d[k].key;
      LookupAtIndex(d[1..], k - 1);
      assert [d[0]] + Without(d[1..], k - 1) == Without(d, k);
      forall data: Data {:trigger Replaced(d, d[k].key, data)}
        ensures Replaced(d, d[k].key, data) == d[k := Pair(d[k].key, data)] {
        assert Replaced(d[1..], d[1..][k - 1].key, data) == d[1..][k - 1 := Pair(d[k].key, data)];
        assert [d[0]] + d[1..][k - 1 := Pair(d[k].key, data)] == d[k := Pair(d[k].key, data)];
      }
    } else {
      assert d[1..] == Without(d, 0);
      forall data: Data {:trigger Replaced(d, d[0].key, data)}
        ensures Replaced(d, d[0].key, data) == d[0 := Pair(d[0].key, data)] {
        assert [Pair(d[0].key, data)] + d[1..] == d[0 := Pair(d[0].key, data)];
      }
    }
  }

  // ---------- the map ----------

  ghost predicate HasKey(d: seq<Pair>, key: Key) {
    exists i: nat {:trigger d[i]} :: i < |d| && d[i].key == key
  }

  function ToMap(d: seq<Pair>): map<Key, Data> {
    if d == [] then map[] else ToMap(d[..|d| - 1])[d[|d| - 1].key := d[|d| - 1].data]
  }

  lemma {:induction false} MapKeys(d: seq<Pair>, key: Key)
    ensures key in ToMap(d) <==> HasKey(d, key)
  {
    if d != [] {
      var front := d[..|d| - 1];
      MapKeys(front, key);
      assert forall i: nat {:trigger front[i]} :: i < |front| ==> front[i] == d[i];
      if key in ToMap(front) {
        var i: nat :| i < |front| && front[i].key == key;
        assert d[i].key == key;
      }
    }
  }

  lemma {:induction false} MapAt(d: seq<Pair>, k: nat)
    requires UniqueKeys(d) && k < |d|
    ensures d[k].key in ToMap(d) && ToMap(d)[d[k].key] == d[k].data
  {
    if k < |d| - 1 {
      assert d[k].key != d[|d| - 1].key;
      MapAt(d[..|d| - 1], k);
    }
  }

  /** Looking up is looking up in the map. */
  lemma LookupIsMap(d: seq<Pair>, key: Key)
    requires UniqueKeys(d)
    ensures Lookup(d, key) == if key in ToMap(d) then Some(ToMap(d)[key]) else None
  {
    MapKeys(d, key);
    if key in ToMap(d) {
      var k: nat :| k < |d| && d[k].key == key;
      LookupAtIndex(d, k);
      MapAt(d, k);
    } else {
      LookupAbsent(d, key);
    }
  }

  /** Two dictionaries with the same pairs are the same map. */
  lemma SamePairsSameMap(d: seq<Pair>, m: map<Key, Data>)
    requires UniqueKeys(d)
    requires forall k: nat {:trigger d[k]} :: k < |d| ==> d[k].key in m && m[d[k].key] == d[k].data
    requires forall key: Key {:trigger key in m} :: key in m ==> HasKey(d, key)
    ensures ToMap(d) == m
  {
    forall key: Key ensures key in ToMap(d) <==> key in m {
      MapKeys(d, key);
    }
    forall key: Key | key in m ensures key in ToMap(d) && ToMap(d)[key] == m[key] {
      var k: nat :| k < |d| && d[k].key == key;
      MapAt(d, k);
    }
  }

  /** Removing a key removes it from the map, replacing changes the map at the key, appending a new pair adds it. */
  lemma OperationsAreMapOperations(d: seq<Pair>, key: Key, data: Data)
    requires UniqueKeys(d)
    ensures UniqueKeys(Removed(d, key)) && ToMap(Removed(d, key)) == ToMap(d) - {key}
    ensures key in ToMap(d) ==>
      UniqueKeys(Replaced(d, key, data)) && ToMap(Replaced(d, key, data)) == ToMap(d)[key := data]
    ensures key !in ToMap(d) ==>
      UniqueKeys(d + [Pair(key, data)]) && ToMap(d + [Pair(key, data)]) == ToMap(d)[key := data]
  {
    MapKeys(d, key);
    if key in ToMap(d) {
      var k: nat :| k < |d| && d[k].key == key;
      LookupAtIndex(d, k);
      RemovedMap(d, k);
      ReplacedMap(d, k, data);
    } else {
      LookupAbsent(d, key);
      assert (d + [Pair(key, data)])[..|d|] == d;
    }
  }

  lemma RemovedUnique(d: seq<Pair>, k: nat)
    requires UniqueKeys(d) && k < |d|
    ensures UniqueKeys(Without(d, k))
  {
    var e := Without(d, k);
    forall i: nat, j: nat {:trigger e[i], e[j]} | i < j < |e| ensures e[i].key != e[j].key {
      assert d[if i < k then i else i + 1].key != d[if j < k then j else j + 1].key;
    }
  }

  lemma RemovedCovers(d: seq<Pair>, k: nat, key: Key)
    requires k < |d| && HasKey(d, key) && key != d[k].key
    ensures HasKey(Without(d, k), key)
  {
    var i: nat :| i < |d| && d[i].key == key;
    var e, j := Without(d, k), if i < k then i else i - 1;
    assert e[j] == d[i];
    assert e[j].key == key;
  }

  lemma RemovedAt(d: seq<Pair>, k: nat, i: nat)
    requires UniqueKeys(d) && k < |d| && i < |Without(d, k)|
    ensures Without(d, k)[i].key != d[k].key
    ensures Without(d, k)[i].key in ToMap(d) && ToMap(d)[Without(d, k)[i].key] == Without(d, k)[i].data
  {
    var j := if i < k then i else i + 1;
    var p := Without(d, k)[i];
    assert p == d[j] && d[j].key != d[k].key;
    MapAt(d, j);
    assert p.key in ToMap(d) && ToMap(d)[p.key] == p.data;
  }

  lemma RemovedMap(d: seq<Pair>, k: nat)
    requires UniqueKeys(d) && k < |d|
    ensures UniqueKeys(Without(d, k)) && ToMap(Without(d, k)) == ToMap(d) - {d[k].key}
  {
    var e, m := Without(d, k), ToMap(d) - {d[k].key};
    RemovedUnique(d, k);
    forall i: nat {:trigger e[i]} | i < |e| ensures e[i].key in m && m[e[i].key] == e[i].data {
      RemovedAt(d, k, i);
    }
    forall key: Key {:trigger key in m} | key in m ensures HasKey(e, key) {
      MapKeys(d, key);
      RemovedCovers(d, k, key);
    }
    SamePairsSameMap(e, m);
  }

  lemma ReplacedMap(d: seq<Pair>, k: nat, data: Data)
    requires UniqueKeys(d) && k < |d|
    ensures UniqueKeys(d[k := Pair(d[k].key, data)]) &&
      ToMap(d[k := Pair(d[k].key, data)]) == ToMap(d)[d[k].key := data]
  {
    var e, m := d[k := Pair(d[k].key, data)], ToMap(d)[d[k].key := data];
    forall i: nat {:trigger e[i]} | i < |e| ensures e[i].key in m && m[e[i].key] == e[i].data {
      MapAt(d, i);
      if i != k { assert d[i].key != d[k].key; }
    }
    forall key: Key {:trigger key in m} | key in m ensures HasKey(e, key) {
      if key == d[k].key { assert e[k].key == key; } else {
        MapKeys(d, key);
        var i: nat :| i < |d| && d[i].key == key;
        assert e[i].key == key;
      }
    }
    SamePairsSameMap(e, m);
  }

  lemma {:induction false} KeptPrefix(d: seq<Pair>)
    ensures Kept(d) <= d && NoNull(Kept(d))
    ensures |Kept(d)| < |d| ==> d[|Kept(d)|].data == 0
  {
    if d != [] && d[0].data != 0 { KeptPrefix(d[1..]); }
  }

  /** A walk that stops at a NULL answer keeps the map exactly when no entry has a NULL data pointer. */
  lemma KeptIffNoNull(d: seq<Pair>)
    requires UniqueKeys(d)
    ensures UniqueKeys(Kept(d))
    ensures Kept(d) == d <==> NoNull(d)
    ensures ToMap(Kept(d)) == ToMap(d) <==> NoNull(d)
  {
    KeptPrefix(d);
    var n := |Kept(d)|;
    if n < |d| {
      assert d[n].data == 0;
      MapAt(d, n);
      MapKeys(Kept(d), d[n].key);
      forall i: nat {:trigger Kept(d)[i]} | i < n ensures Kept(d)[i].key != d[n].key {
        assert Kept(d)[i] == d[i] && d[i].key != d[n].key;
      }
    }
  }

  // ---------- operations on the dictionary and on the map ----------

  /** What a caller gets for an absent key is NULL. */
  function DataOf(found: Option<Data>): Data {
    if found.Some? then found.value else 0
  }

  datatype Operation =
    | Insert(key: Key, data: Data, memory: bool)
    | Get(key: Key)
    | Replace(key: Key, data: Data)
    | Remove(key: Key)
    | Rehash(size: nat)
    | SetHeuristics(heuristics: Heuristics)
    | SetRehash(automatic: bool)

  datatype Answer = Inserted(status: InsertStatus) | Found(data: Data) | Done

  ghost function Perform(d: seq<Pair>, op: Operation): (seq<Pair>, Answer) {
    match op
    case Insert(key, data, memory) =>
      if HasKey(d, key) then (d, Inserted(AlreadyInHash))
      else if memory then (d + [Pair(key, data)], Inserted(Ok))
      else (d, Inserted(OutOfMemory))
    case Get(key) => (d, Found(DataOf(Lookup(d, key))))
    case Replace(key, data) => (Replaced(d, key, data), Found(DataOf(Lookup(d, key))))
    case Remove(key) => (Removed(d, key), Found(DataOf(Lookup(d, key))))
    case _ => (d, Done)
  }

  function PerformOnMap(m: map<Key, Data>, op: Operation): (map<Key, Data>, Answer) {
    match op
    case Insert(key, data, memory) =>
      if key in m then (m, Inserted(AlreadyInHash))
      else if memory then (m[key := data], Inserted(Ok))
      else (m, Inserted(OutOfMemory))
    case Get(key) => (m, Found(if key in m then m[key] else 0))
    case Replace(key, data) => (if key in m then m[key := data] else m, Found(if key in m then m[key] else 0))
    case Remove(key) => (m - {key}, Found(if key in m then m[key] else 0))
    case _ => (m, Done)
  }

  lemma OperationIsMapOperation(d: seq<Pair>, op: Operation)
    requires UniqueKeys(d)
    ensures UniqueKeys(Perform(d, op).0)
    ensures PerformOnMap(ToMap(d), op) == (ToMap(Perform(d, op).0), Perform(d, op).1)
  {
    if op.Insert? || op.Get? || op.Replace? || op.Remove? {
      MapKeys(d, op.key);
      LookupIsMap(d, op.key);
      OperationsAreMapOperations(d, op.key, if op.Insert? || op.Replace? then op.data else 0);
      if op.Replace? && op.key !in ToMap(d) {
        LookupAbsent(d, op.key);
      }
    }
  }

  ghost function RunOf(d: seq<Pair>, ops: seq<Operation>): (seq<Pair>, seq<Answer>) {
    if ops == [] then (d, []) else
      var (before, answers) := RunOf(d, ops[..|ops| - 1]);
      var (after, answer) := Perform(before, ops[|ops| - 1]);
      (after, answers + [answer])
  }

  lemma RunOfNext(d: seq<Pair>, ops: seq<Operation>, i: nat)
    requires i < |ops|
    ensures var (before, answers) := RunOf(d, ops[..i]);
      var (after, answer) := Perform(before, ops[i]);
      RunOf(d, ops[..i + 1]) == (after, answers + [answer])
  {
    assert ops[..i + 1][..i] == ops[..i];
  }

  function RunOnMap(m: map<Key, Data>, ops: seq<Operation>): (map<Key, Data>, seq<Answer>) {
    if ops == [] then (m, []) else
      var (before, answers) := RunOnMap(m, ops[..|ops| - 1]);
      var (after, answer) := PerformOnMap(before, ops[|ops| - 1]);
      (after, answers + [answer])
  }

  /** Every run of operations gives the answers a map gives and ends with the map's contents. */
  lemma {:induction false} RunsLikeAMap(d: seq<Pair>, ops: seq<Operation>)
    requires UniqueKeys(d)
    ensures UniqueKeys(RunOf(d, ops).0)
    ensures RunOnMap(ToMap(d), ops) == (ToMap(RunOf(d, ops).0), RunOf(d, ops).1)
  {
    if ops != [] {
      RunsLikeAMap(d, ops[..|ops| - 1]);
      OperationIsMapOperation(RunOf(d, ops[..|ops| - 1]).0, ops[|ops| - 1]);
    }
  }
}
