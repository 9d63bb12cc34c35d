/**
 The vtable hook manager: which class an object has, which hooker the engine picks for it, and the
 bookkeeping of hooked vtables. Function pointers, vtables, objects and entries are named by addresses.
 */
module HookModel {
  import opened Options

  type Fn = nat
  type Addr = nat
  type Obj = nat
  type Id = nat
  type HookerId = nat

  // ---------- classes ----------

  /** A meta class and its chain of super classes. */
  datatype MetaClass = Root(name: nat) | Derived(name: nat, super: MetaClass)

  function Height(m: MetaClass): nat {
    if m.Root? then 0 else 1 + Height(m.super)
  }

  /** The `n`-th super class. */
  function Ancestor(m: MetaClass, n: nat): Option<MetaClass> {
    if n == 0 then Some(m) else if m.Root? then None else Ancestor(m.super, n - 1)
  }

  /** How many steps up the chain `target` is first met. */
  function Distance(m: MetaClass, target: MetaClass): Option<nat> {
    if m == target then Some(0)
    else if m.Root? then None
    else match Distance(m.super, target) case None => None case Some(n) => Some(n + 1)
  }

  lemma {:induction false} AncestorHeight(m: MetaClass, n: nat)
    ensures Ancestor(m, n).Some? <==> n <= Height(m)
    ensures Ancestor(m, n).Some? ==> Height(Ancestor(m, n).value) == Height(m) - n
  {
    if n > 0 && m.Derived? { AncestorHeight(m.super, n - 1); }
  }

  /** Distance inverts Ancestor: no class occurs twice in a chain. */
  lemma {:induction false} DistanceOfAncestor(m: MetaClass, n: nat)
    requires Ancestor(m, n).Some?
    ensures Distance(m, Ancestor(m, n).value) == Some(n)
  {
    if n > 0 {
      AncestorHeight(m, n);
      DistanceOfAncestor(m.super, n - 1);
    }
  }

  lemma {:induction false} AncestorOfDistance(m: MetaClass, target: MetaClass)
    requires Distance(m, target).Some?
    ensures Ancestor(m, Distance(m, target).value) == Some(target)
  {
    if m != target { AncestorOfDistance(m.super, target); }
  }

  lemma {:induction false} AncestorCompose(m: MetaClass, n: nat, k: nat)
    requires Ancestor(m, n).Some?
    ensures Ancestor(Ancestor(m, n).value, k) == Ancestor(m, n + k)
  {
    if n > 0 { AncestorCompose(m.super, n - 1, k); }
  }

  // ---------- configuration ----------

  /** A slot to hook: the index counts from 1. */
  datatype SlotHook = SlotHook(index: nat, hooking: Fn)

  datatype HookerSpec = HookerSpec(slots: seq<SlotHook>, depth: nat, target: MetaClass)

  /** Number of inheritance depths for which classes can be registered. */
  const MAX_DEPTH: nat := 11

  /** What never changes: the contents of the vtables before any hook, the class whose objects use a vtable, the
      hookers, and the classes registered for vtable hooking at each depth. */
  datatype Config = Config(
    native: map<Addr, seq<Fn>>,
    home: map<Addr, MetaClass>,
    specs: map<HookerId, HookerSpec>,
    registered: map<(nat, MetaClass), HookerId>)

  /** The engine walks up from the leaf class and stops at the first class registered at the matching depth. */
  function SelectFrom(c: Config, m: MetaClass, depth: nat): Option<HookerId>
    decreases m
  {
    if depth >= MAX_DEPTH then None
    else if (depth, m) in c.registered then Some(c.registered[(depth, m)])
    else if m.Root? then None
    else SelectFrom(c, m.super, depth + 1)
  }

  function Select(c: Config, m: MetaClass): Option<HookerId> {
    SelectFrom(c, m, 0)
  }

  /** The class `k` steps up the chain is registered at the matching depth, when the walk starts at `depth`. */
  predicate RegisteredAt(c: Config, m: MetaClass, depth: nat, k: nat) {
    && depth + k < MAX_DEPTH && Ancestor(m, k).Some?
    && (depth + k, Ancestor(m, k).value) in c.registered
  }

  /** The walk finds the nearest registered class, and nothing exactly when no class is registered. */
  lemma {:induction false} NearestFrom(c: Config, m: MetaClass, depth: nat)
    ensures SelectFrom(c, m, depth) == None <==> forall k: nat {:trigger RegisteredAt(c, m, depth, k)} ::
      !RegisteredAt(c, m, depth, k)
    ensures forall k: nat {:trigger RegisteredAt(c, m, depth, k)} ::
      RegisteredAt(c, m, depth, k) &&
      (forall j: nat {:trigger RegisteredAt(c, m, depth, j)} :: j < k ==> !RegisteredAt(c, m, depth, j)) ==>
        SelectFrom(c, m, depth) == Some(c.registered[(depth + k, Ancestor(m, k).value)])
    decreases m
  {
    if RegisteredAt(c, m, depth, 0) {
    } else if m.Derived? && depth < MAX_DEPTH {
      NearestFrom(c, m.super, depth + 1);
      forall k: nat {:trigger RegisteredAt(c, m, depth, k)} | k > 0
        ensures RegisteredAt(c, m, depth, k) <==> RegisteredAt(c, m.super, depth + 1, k - 1) {
      }
      forall j: nat {:trigger RegisteredAt(c, m.super, depth + 1, j)}
        ensures RegisteredAt(c, m.super, depth + 1, j) <==> RegisteredAt(c, m, depth, j + 1) {
      }
    }
  }

  /** What the engine's choice means: the hooker of the nearest class of the chain that is registered at its depth. */
  ghost predicate Nearest(c: Config, m: MetaClass, h: Option<HookerId>) {
    && (h == None <==> forall k: nat {:trigger RegisteredAt(c, m, 0, k)} :: !RegisteredAt(c, m, 0, k))
    && forall k: nat {:trigger RegisteredAt(c, m, 0, k)} ::
      RegisteredAt(c, m, 0, k) &&
      (forall j: nat {:trigger RegisteredAt(c, m, 0, j)} :: j < k ==> !RegisteredAt(c, m, 0, j)) ==>
        h == Some(c.registered[(k, Ancestor(m, k).value)])
  }

  lemma SelectNearest(c: Config, m: MetaClass)
    ensures Nearest(c, m, Select(c, m))
  {
    NearestFrom(c, m, 0);
  }

  predicate ValidSlots(slots: seq<SlotHook>, size: nat) {
    && slots != []
    && (forall i: nat {:trigger slots[i]} :: i < |slots| ==> 1 <= slots[i].index <= size)
    && (forall i: nat, j: nat {:trigger slots[i], slots[j]} :: i < j < |slots| ==> slots[i].index != slots[j].index)
  }

  /** A hooker is registered for the class it hooks, at its depth; it hooks distinct slots inside every vtable
      it is picked for, and no vtable contains a hooking function from the start. */
  ghost predicate ValidConfig(c: Config) {
    && c.home.Keys <= c.native.Keys
    && (forall d: nat, m: MetaClass {:trigger (d, m) in c.registered} :: (d, m) in c.registered ==>
          var h := c.registered[(d, m)]; h in c.specs && c.specs[h].depth == d && c.specs[h].target == m)
    && (forall v: Addr {:trigger c.home[v]} :: v in c.home && Select(c, c.home[v]).Some? ==>
          var h := Select(c, c.home[v]).value; h in c.specs && ValidSlots(c.specs[h].slots, |c.native[v]|))
    && (forall v: Addr, h: HookerId, i: nat, k: nat {:trigger c.native[v][k], c.specs[h].slots[i]} ::
          v in c.native && h in c.specs && k < |c.native[v]| && i < |c.specs[h].slots| ==>
            c.native[v][k] != c.specs[h].slots[i].hooking)
  }

  /** All objects of one class share one vtable. */
  ghost predicate OneVtablePerClass(c: Config) {
    forall v: Addr, u: Addr {:trigger c.home[v], c.home[u]} :: v in c.home && u in c.home && c.home[v] == c.home[u] ==>
      v == u
  }

  lemma {:induction false} SelectedFrom(c: Config, m: MetaClass, depth: nat)
    requires ValidConfig(c) && SelectFrom(c, m, depth).Some?
    ensures var h := SelectFrom(c, m, depth).value;
            h in c.specs && c.specs[h].depth >= depth && Ancestor(m, c.specs[h].depth - depth) ==
              Some(c.specs[h].target)
    decreases m
  {
    if (depth, m) !in c.registered { SelectedFrom(c, m.super, depth + 1); }
  }

  /** The hooked class is exactly `depth` steps above the class the hooker was picked for. */
  lemma SelectedTarget(c: Config, m: MetaClass)
    requires ValidConfig(c) && Select(c, m).Some?
    ensures var h := Select(c, m).value; h in c.specs && Ancestor(m, c.specs[h].depth) == Some(c.specs[h].target)
  {
    SelectedFrom(c, m, 0);
  }

  // ---------- slots ----------

  /** One element of a function info array. */
  datatype FnInfo = FnInfo(index: nat, original: Fn, hooking: Fn)

  /** The hooking function for slot `i` (counted from 0), if the slot is listed. */
  function HookFor(slots: seq<SlotHook>, i: nat): Option<Fn> {
    if slots == [] then None
    else if slots[0].index == i + 1 then Some(slots[0].hooking)
    else HookFor(slots[1..], i)
  }

  /** A vtable with the listed slots overwritten and every other slot as it was. */
  function Patched(table: seq<Fn>, slots: seq<SlotHook>): (r: seq<Fn>)
    ensures |r| == |table|
  {
    seq(|table|, i requires 0 <= i < |table| => match HookFor(slots, i) case None => table[i] case Some(f) => f)
  }

  /** The info array after hooking: every element knows what its slot held. */
  function Recorded(table: seq<Fn>, slots: seq<SlotHook>): (r: seq<FnInfo>)
    requires forall i: nat {:trigger slots[i]} :: i < |slots| ==> 1 <= slots[i].index <= |table|
    ensures |r| == |slots|
  {
    seq(|slots|, i requires 0 <= i < |slots| => FnInfo(slots[i].index, table[slots[i].index - 1], slots[i].hooking))
  }

  lemma {:induction false} HookForListed(slots: seq<SlotHook>, k: nat)
    requires k < |slots| && slots[k].index >= 1
    requires forall i: nat, j: nat {:trigger slots[i], slots[j]} :: i < j < |slots| ==> slots[i].index != slots[j].index
    ensures HookFor(slots, slots[k].index - 1) == Some(slots[k].hooking)
  {
    if k > 0 {
      assert slots[0].index != slots[k].index;
      HookForListed(slots[1..], k - 1);
    }
  }

  lemma {:induction false} HookForUnlisted(slots: seq<SlotHook>, i: nat)
    requires forall k: nat {:trigger slots[k]} :: k < |slots| ==> slots[k].index != i + 1
    ensures HookFor(slots, i) == None
  {
    if slots != [] {
      assert slots[0].index != i + 1;
      assert forall k: nat {:trigger slots[1..][k]} :: k < |slots| - 1 ==> slots[1..][k] == slots[k + 1];
      HookForUnlisted(slots[1..], i);
    }
  }

  // ---------- the world ----------

  datatype Object = Object(class_: MetaClass, vptr: Addr)

  datatype TrackKey = TrackKey(obj: Obj, class_: MetaClass, depth: nat)
  datatype VtKey = VtKey(vtable: Addr, class_: MetaClass, depth: nat)
  datatype ClassKey = ClassKey(class_: MetaClass, depth: nat)

  /** The entry for a hooked vtable: `refs` is its reference count, `retain` the retain count of the entry object. */
  datatype VtEntry = VtEntry(hooker: HookerId, vtable: Addr, class_: MetaClass, depth: nat, info: seq<FnInfo>,
      refs: nat, retain: nat)

  /** The entry for a tracked object. */
  datatype ObjEntry = ObjEntry(hooker: HookerId, vtEntry: Id, original: Addr, retain: nat)

  datatype Hooker = Hooker(metaClass: Option<MetaClass>, counter: int)

  /** The hash table is kept as one map per kind of key: `tracked` for objects, `hooked` for vtables, and `anyVt`
      for the key with a NULL vtable. */
  datatype World = World(
    objects: map<Obj, Object>,
    vtables: map<Addr, seq<Fn>>,
    tracked: map<TrackKey, ObjEntry>,
    hooked: map<VtKey, Id>,
    anyVt: map<ClassKey, Id>,
    vts: map<Id, VtEntry>,
    hookers: map<HookerId, Hooker>)

  function KeyOf(e: VtEntry): VtKey {
    VtKey(e.vtable, e.class_, e.depth)
  }

  function GroupOf(e: VtEntry): ClassKey {
    ClassKey(e.class_, e.depth)
  }

  /** The tracked objects that point at a vtable entry. */
  ghost function Users(w: World, id: Id): set<TrackKey> {
    set k | k in w.tracked && w.tracked[k].vtEntry == id
  }

  /** The tracked objects of a hooker. */
  ghost function Mine(w: World, h: HookerId): set<TrackKey> {
    set k | k in w.tracked && w.tracked[k].hooker == h
  }

  /** The other hooked vtables of the group. */
  ghost function Others(w: World, id: Id, g: ClassKey): set<VtKey> {
    set k | k in w.hooked && k.class_ == g.class_ && k.depth == g.depth && w.hooked[k] != id
  }

  ghost predicate Owns(w: World, id: Id, g: ClassKey) {
    g in w.anyVt && w.anyVt[g] == id
  }

  ghost function ExpectedRefs(w: World, id: Id, g: ClassKey): nat {
    |Users(w, id)| + if Owns(w, id, g) then |Others(w, id, g)| else 0
  }

  ghost function ExpectedRetain(w: World, id: Id, g: ClassKey): nat {
    |Users(w, id)| + 1 + if Owns(w, id, g) then 1 else 0
  }

  // ---------- the invariant, one named fact per kind of thing ----------

  ghost predicate ObjectOk(c: Config, w: World, o: Obj)
    requires o in w.objects
  {
    var ob := w.objects[o];
    ob.vptr in w.vtables && (ob.vptr in c.home ==> c.home[ob.vptr] == ob.class_)
  }

  ghost predicate TrackedOk(c: Config, w: World, k: TrackKey)
    requires k in w.tracked
  {
    var e := w.tracked[k];
    && e.retain == 1 && e.vtEntry in w.vts
    && k.obj in w.objects && w.objects[k.obj].class_ == k.class_
    && w.vts[e.vtEntry].class_ == k.class_ && w.vts[e.vtEntry].depth == k.depth
    && w.vts[e.vtEntry].hooker == e.hooker && w.vts[e.vtEntry].vtable == e.original
  }

  /** The vtable belongs to the class of its key, and its hooker is the one the engine picks for that class. */
  ghost predicate RightHooker(c: Config, w: World, e: VtEntry) {
    && e.vtable in c.home && c.home[e.vtable] == e.class_
    && Select(c, e.class_) == Some(e.hooker) && e.hooker in c.specs && c.specs[e.hooker].depth == e.depth
    && e.hooker in w.hookers && w.hookers[e.hooker].metaClass == Some(c.specs[e.hooker].target)
  }

  ghost predicate EntryOk(c: Config, w: World, id: Id)
    requires id in w.vts
  {
    var e := w.vts[id];
    && RightHooker(c, w, e)
    && KeyOf(e) in w.hooked && w.hooked[KeyOf(e)] == id
    && GroupOf(e) in w.anyVt
    && e.refs > 0 && e.refs == ExpectedRefs(w, id, GroupOf(e))
    && e.retain == ExpectedRetain(w, id, GroupOf(e))
    && e.vtable in c.native && ValidSlots(c.specs[e.hooker].slots, |c.native[e.vtable]|)
    && e.info == Recorded(c.native[e.vtable], c.specs[e.hooker].slots)
  }

  ghost predicate HookedOk(w: World, k: VtKey)
    requires k in w.hooked
  {
    w.hooked[k] in w.vts && KeyOf(w.vts[w.hooked[k]]) == k
  }

  ghost predicate AnyOk(w: World, g: ClassKey)
    requires g in w.anyVt
  {
    w.anyVt[g] in w.vts && GroupOf(w.vts[w.anyVt[g]]) == g
  }

  ghost predicate HookerOk(c: Config, w: World, h: HookerId)
    requires h in w.hookers
  {
    && h in c.specs && w.hookers[h].counter == |Mine(w, h)|
    && (w.hookers[h].metaClass.Some? ==> w.hookers[h].metaClass.value == c.specs[h].target)
  }

  /** The key under which a vtable can be hooked. */
  function HookKey(c: Config, v: Addr): Option<VtKey> {
    if v in c.home && Select(c, c.home[v]).Some? && Select(c, c.home[v]).value in c.specs
    then Some(VtKey(v, c.home[v], c.specs[Select(c, c.home[v]).value].depth)) else None
  }

  predicate IsHooked(c: Config, w: World, v: Addr) {
    HookKey(c, v).Some? && HookKey(c, v).value in w.hooked
  }

  /** A vtable of the system holds the hooking functions exactly while it is hooked, and is pristine otherwise. */
  ghost predicate SlotsOk(c: Config, w: World, v: Addr)
    requires v in c.native
  {
    v in w.vtables &&
    w.vtables[v] == if IsHooked(c, w, v) then Patched(c.native[v], c.specs[Select(c, c.home[v]).value].slots)
      else c.native[v]
  }

  ghost predicate Inv(c: Config, w: World) {
    && (forall o: Obj {:trigger ObjectOk(c, w, o)} :: o in w.objects ==> ObjectOk(c, w, o))
    && (forall k: TrackKey {:trigger TrackedOk(c, w, k)} :: k in w.tracked ==> TrackedOk(c, w, k))
    && (forall id: Id {:trigger EntryOk(c, w, id)} :: id in w.vts ==> EntryOk(c, w, id))
    && (forall k: VtKey {:trigger HookedOk(w, k)} :: k in w.hooked ==> HookedOk(w, k))
    && (forall g: ClassKey {:trigger AnyOk(w, g)} :: g in w.anyVt ==> AnyOk(w, g))
    && (forall h: HookerId {:trigger HookerOk(c, w, h)} :: h in w.hookers ==> HookerOk(c, w, h))
    && (forall v: Addr {:trigger SlotsOk(c, w, v)} :: v in c.native ==> SlotsOk(c, w, v))
  }

  // ---------- what the operations do ----------

  datatype Status = Success | NoMemory | Error

  /** The delayed initialization of the hooker's class pointer. */
  function NoteClass(c: Config, w: World, h: HookerId, o: Obj): World
    requires h in w.hookers && h in c.specs && o in w.objects
  {
    var hk := w.hookers[h];
    if hk.metaClass == None || hk.counter == 0
    then w.(hookers := w.hookers[h := hk.(metaClass := Ancestor(w.objects[o].class_, c.specs[h].depth))])
    else w
  }

  function CountUp(w: World, h: HookerId): map<HookerId, Hooker>
    requires h in w.hookers
  {
    w.hookers[h := w.hookers[h].(counter := w.hookers[h].counter + 1)]
  }

  /** One more object of an already hooked vtable is tracked. */
  function Track(w: World, h: HookerId, k: TrackKey, id: Id): World
    requires h in w.hookers && id in w.vts
  {
    var e := w.vts[id];
    w.(tracked := w.tracked[k := ObjEntry(h, id, e.vtable, 1)],
       vts := w.vts[id := e.(refs := e.refs + 1, retain := e.retain + 1)],
       hookers := CountUp(w, h))
  }

  function Bump(vts: map<Id, VtEntry>, id: Id): map<Id, VtEntry>
    requires id in vts
  {
    vts[id := vts[id].(refs := vts[id].refs + 1)]
  }

  /** A vtable is hooked for its first tracked object. */
  function Install(c: Config, w: World, h: HookerId, k: TrackKey, v: Addr, id: Id): World
    requires h in w.hookers && h in c.specs && v in w.vtables
    requires forall i: nat {:trigger c.specs[h].slots[i]} :: i < |c.specs[h].slots| ==>
      1 <= c.specs[h].slots[i].index <= |w.vtables[v]|
    requires ClassKey(k.class_, k.depth) in w.anyVt ==> w.anyVt[ClassKey(k.class_, k.depth)] in w.vts
  {
    var g := ClassKey(k.class_, k.depth);
    var info := Recorded(w.vtables[v], c.specs[h].slots);
    var others := if g in w.anyVt then Bump(w.vts, w.anyVt[g]) else w.vts;
    var owner := if g in w.anyVt then 0 else 1;
    w.(tracked := w.tracked[k := ObjEntry(h, id, v, 1)],
       hooked := w.hooked[VtKey(v, k.class_, k.depth) := id],
       anyVt := if g in w.anyVt then w.anyVt else w.anyVt[g := id],
       vts := others[id := VtEntry(h, v, k.class_, k.depth, info, 1, 2 + owner)],
       vtables := w.vtables[v := Patched(w.vtables[v], c.specs[h].slots)],
       hookers := CountUp(w, h))
  }

  /** The saved original for slot `i` (counted from 0), if the slot is listed. */
  function OriginalFor(info: seq<FnInfo>, i: nat): Option<Fn> {
    if info == [] then None
    else if info[0].index == i + 1 then Some(info[0].original)
    else OriginalFor(info[1..], i)
  }

  /** A vtable with the saved originals written back. */
  function Restored(table: seq<Fn>, info: seq<FnInfo>): (r: seq<Fn>)
    ensures |r| == |table|
  {
    seq(|table|, i requires 0 <= i < |table| => match OriginalFor(info, i) case None => table[i] case Some(f) => f)
  }

  function CountDown(w: World, h: HookerId): map<HookerId, Hooker>
    requires h in w.hookers
  {
    w.hookers[h := w.hookers[h].(counter := w.hookers[h].counter - 1)]
  }

  /** The object of key `k` is no longer tracked, other objects of its vtable are. */
  function Untrack(w: World, h: HookerId, k: TrackKey): World
    requires h in w.hookers && k in w.tracked && w.tracked[k].vtEntry in w.vts
    requires w.vts[w.tracked[k].vtEntry].refs > 0 && w.vts[w.tracked[k].vtEntry].retain > 0
  {
    var id := w.tracked[k].vtEntry;
    var v := w.vts[id];
    w.(tracked := w.tracked - {k}, hookers := CountDown(w, h), vts :=
      w.vts[id := v.(refs := v.refs - 1, retain := v.retain - 1)])
  }

  /** The last reference to the vtable entry is gone: the vtable is restored, the entry leaves the table and is freed,
      and the owner of the NULL key loses a reference, leaving that key when it was the last one. */
  function Uninstall(w: World, h: HookerId, k: TrackKey): World
    requires h in w.hookers && k in w.tracked && w.tracked[k].vtEntry in w.vts
    requires w.vts[w.tracked[k].vtEntry].vtable in w.vtables && GroupOf(w.vts[w.tracked[k].vtEntry]) in w.anyVt
    requires var own := w.anyVt[GroupOf(w.vts[w.tracked[k].vtEntry])];
      own in w.vts && w.vts[own].refs > 0 && w.vts[own].retain > 0
  {
    var id := w.tracked[k].vtEntry;
    var v := w.vts[id];
    var g, own := GroupOf(v), w.anyVt[GroupOf(v)];
    var rest := w.vts - {id};
    var u := w.(tracked := w.tracked - {k}, hookers := CountDown(w, h), hooked := w.hooked - {KeyOf(v)},
                vtables := w.vtables[v.vtable := Restored(w.vtables[v.vtable], v.info)]);
    if own == id then u.(anyVt := w.anyVt - {g}, vts := rest)
    else
      var o := w.vts[own];
      if o.refs > 1 then u.(vts := rest[own := o.(refs := o.refs - 1)])
      else u.(anyVt := w.anyVt - {g}, vts := rest[own := o.(refs := 0, retain := o.retain - 1)])
  }

  /** Unhooking an object through a hooker. */
  function Unhook(c: Config, w: World, h: HookerId, o: Obj): World
    requires Inv(c, w) && h in w.hookers && h in c.specs && o in w.objects
  {
    var k := TrackKey(o, w.objects[o].class_, c.specs[h].depth);
    if k !in w.tracked then w
    else
      UnhookDefined(c, w, k);
      if w.vts[w.tracked[k].vtEntry].refs > 1 then Untrack(w, h, k) else Uninstall(w, h, k)
  }

  lemma UnhookDefined(c: Config, w: World, k: TrackKey)
    requires Inv(c, w) && k in w.tracked
    ensures w.tracked[k].vtEntry in w.vts
    ensures var v := w.vts[w.tracked[k].vtEntry];
      && v.refs > 0 && v.retain > 0 && v.vtable in w.vtables && GroupOf(v) in w.anyVt
      && w.anyVt[GroupOf(v)] in w.vts && w.vts[w.anyVt[GroupOf(v)]].refs > 0 && w.vts[w.anyVt[GroupOf(v)]].retain > 0
  {
    assert TrackedOk(c, w, k);
    var id := w.tracked[k].vtEntry;
    assert EntryOk(c, w, id) && AnyOk(w, GroupOf(w.vts[id]));
    assert EntryOk(c, w, w.anyVt[GroupOf(w.vts[id])]) && SlotsOk(c, w, w.vts[id].vtable);
  }
}
