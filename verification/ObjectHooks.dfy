/**
 Hooks on single objects, on top of the vtable hooks: an object gets a pointer to a private copy of its vtable in
 which more slots are patched. The engine hooks the vtable first; an object is unhooked before its vtable is.
 */
module ObjectHooks {
  import opened HookLookup
  import opened HookModel
  import opened HookProofs
  import opened HookRuns
  import opened Options

  /** The hooker of one leaf class: the private copy while there is one, what it was copied from, and the saved
      originals.
      `patched` is bookkeeping: the vtable was hooked when the copy was made. */
  datatype ObjectHooker = ObjectHooker(copy: Option<Addr>, original: Option<Addr>, info: Option<seq<FnInfo>>,
      counter: int, patched: bool)

  /** `slots` are the slots to hook for each class registered for object hooks. */
  type ObjectConfig = map<MetaClass, seq<SlotHook>>

  /** The vtable hooks, the object hookers, and for every hooked object the vtable it had before. */
  datatype State = State(w: World, per: map<MetaClass, ObjectHooker>, replaced: map<Obj, Addr>)

  ghost predicate ValidObjects(c: Config, p: ObjectConfig)
    requires ValidConfig(c)
  {
    && (forall m: MetaClass, v: Addr {:trigger p[m], c.home[v]} :: m in p && v in c.home && c.home[v] == m ==>
      ValidSlots(p[m], |c.native[v]|))
    && (forall m: MetaClass, j: nat, h: HookerId, i: nat {:trigger p[m][j], c.specs[h].slots[i]} ::
          m in p && j < |p[m]| && h in c.specs && i < |c.specs[h].slots| ==>
            p[m][j].hooking != c.specs[h].slots[i].hooking)
    && (forall m: MetaClass, j: nat, v: Addr, k: nat {:trigger p[m][j], c.native[v][k]} ::
          m in p && j < |p[m]| && v in c.native && k < |c.native[v]| ==> p[m][j].hooking != c.native[v][k])
  }

  /** What a vtable of class `m` holds while it is hooked, and while it is not. */
  function Base(c: Config, m: MetaClass, v: Addr, hooked: bool): seq<Fn>
    requires v in c.native && (hooked ==> Select(c, m).Some? && Select(c, m).value in c.specs)
  {
    if hooked then Patched(c.native[v], c.specs[Select(c, m).value].slots) else c.native[v]
  }

  // ---------- the operations ----------

  /** The first object of a class: the vtable is copied to a new address and the copy is patched. */
  function MakeCopy(c: Config, p: ObjectConfig, s: State, m: MetaClass, v: Addr, at: Addr): State
    requires m in s.per && m in p && v in s.w.vtables
    requires forall i: nat {:trigger p[m][i]} :: i < |p[m]| ==> 1 <= p[m][i].index <= |s.w.vtables[v]|
  {
    s.(w := s.w.(vtables := s.w.vtables[at := Patched(s.w.vtables[v], p[m])]),
       per := s.per[m := s.per[m].(copy := Some(at), original := Some(v), info := Some(Recorded(s.w.vtables[v], p[m])),
                                     patched := IsHooked(c, s.w, v))])
  }

  /** The object is entered into the table and its pointer replaced. */
  function Replace(s: State, o: Obj): State
    requires o in s.w.objects && s.w.objects[o].class_ in s.per && s.per[s.w.objects[o].class_].copy.Some?
  {
    var ob := s.w.objects[o];
    var hk := s.per[ob.class_];
    State(s.w.(objects := s.w.objects[o := ob.(vptr := hk.copy.value)]),
          s.per[ob.class_ := hk.(counter := hk.counter + 1)],
          s.replaced[o := ob.vptr])
  }

  /** Hooking one object; a fault can strike when the copy is allocated or when the object is entered. */
  function HookObject(c: Config, p: ObjectConfig, s: State, o: Obj, fault: Fault, at: Addr): (State, Status)
    requires o in s.w.objects && s.w.objects[o].vptr in s.w.vtables
    requires var m := s.w.objects[o].class_;
      m in s.per && m in p && forall i: nat {:trigger p[m][i]} :: i < |p[m]| ==>
        1 <= p[m][i].index <= |s.w.vtables[s.w.objects[o].vptr]|
  {
    var m, v := s.w.objects[o].class_, s.w.objects[o].vptr;
    if o in s.replaced then (s, Success)
    else if s.per[m].copy == None && fault == AllocationFails then (s, NoMemory)
    else
      var u := if s.per[m].copy == None then MakeCopy(c, p, s, m, v, at) else s;
      if u.per[m].copy == Some(v) then (u, Success)
      else if fault == InsertionFails then (u, NoMemory)
      else (Replace(u, o), Success)
  }

  /** Unhooking one object; the last one takes the copy and the saved originals with it. */
  function UnhookObject(s: State, o: Obj): State
    requires o in s.w.objects && s.w.objects[o].class_ in s.per
  {
    if o !in s.replaced then s
    else
      var m := s.w.objects[o].class_;
      var hk := s.per[m];
      var back := s.(w := s.w.(objects := s.w.objects[o := s.w.objects[o].(vptr := s.replaced[o])]), replaced :=
        s.replaced - {o});
      if hk.counter - 1 == 0 && hk.copy.Some?
      then State(back.w.(vtables := back.w.vtables - {hk.copy.value}),
        s.per[m := ObjectHooker(None, None, None, 0, false)], back.replaced)
      else back.(per := s.per[m := hk.(counter := hk.counter - 1)])
  }

  // ---------- the invariant ----------

  ghost function Hooked(s: State, m: MetaClass): set<Obj> {
    set o | o in s.replaced && o in s.w.objects && s.w.objects[o].class_ == m
  }

  /** A class's copy is its vtable, hooked or not, with the object hooks patched in, at an address of its own. */
  ghost predicate CopyOk(c: Config, p: ObjectConfig, s: State, m: MetaClass)
    requires ValidConfig(c) && m in s.per
  {
    var hk := s.per[m];
    && m in p && hk.counter == |Hooked(s, m)|
    && (hk.copy == None ==> hk.original == None && hk.info == None && hk.counter == 0)
    && (hk.copy.Some? ==>
          && hk.original.Some? && hk.original.value in c.home && c.home[hk.original.value] == m
          && (hk.patched ==> Select(c, m).Some? && Select(c, m).value in c.specs)
          && ValidSlots(p[m], |c.native[hk.original.value]|)
          && hk.copy.value in s.w.vtables && hk.copy.value !in c.native
          && s.w.vtables[hk.copy.value] == Patched(Base(c, m, hk.original.value, hk.patched), p[m])
          && hk.info == Some(Recorded(Base(c, m, hk.original.value, hk.patched), p[m])))
  }

  /** A hooked object uses its class's copy and had the vtable the copy was made from. */
  ghost predicate ReplacedOk(c: Config, s: State, o: Obj)
    requires ValidConfig(c) && o in s.replaced
  {
    && o in s.w.objects
    && var m := s.w.objects[o].class_;
    && m in s.per && s.per[m].copy == Some(s.w.objects[o].vptr) && s.per[m].original == Some(s.replaced[o])
  }

  /** Nobody else uses a private copy. */
  ghost predicate PlainOk(s: State, o: Obj, m: MetaClass) {
    o in s.w.objects && o !in s.replaced && m in s.per ==> s.per[m].copy != Some(s.w.objects[o].vptr)
  }

  ghost predicate CopiesApart(s: State, m: MetaClass, n: MetaClass) {
    m in s.per && n in s.per && m != n && s.per[m].copy.Some? ==> s.per[m].copy != s.per[n].copy
  }

  ghost predicate ObjectsInv(c: Config, p: ObjectConfig, s: State) {
    && ValidConfig(c) && Inv(c, s.w)
    && (forall m: MetaClass {:trigger CopyOk(c, p, s, m)} :: m in s.per ==> CopyOk(c, p, s, m))
    && (forall o: Obj {:trigger ReplacedOk(c, s, o)} :: o in s.replaced ==> ReplacedOk(c, s, o))
    && (forall o: Obj, m: MetaClass {:trigger PlainOk(s, o, m)} :: PlainOk(s, o, m))
    && (forall m: MetaClass, n: MetaClass {:trigger CopiesApart(s, m, n)} :: CopiesApart(s, m, n))
  }

  // ---------- what a call passes through ----------

  /** The vtable hook of a class for slot `x` (counted from 0). */
  function VtableHook(c: Config, m: MetaClass, x: nat): Option<Fn> {
    if Select(c, m).Some? && Select(c, m).value in c.specs then HookFor(c.specs[Select(c, m).value].slots, x) else None
  }

  function ObjectHook(p: ObjectConfig, m: MetaClass, x: nat): Option<Fn> {
    if m in p then HookFor(p[m], x) else None
  }

  /** What function `f`, called through slot `x` of object `o`, calls as its original; other functions call none. */
  function Calls(c: Config, p: ObjectConfig, s: State, o: Obj, x: nat, f: Fn): Option<Fn>
    requires o in s.w.objects
  {
    var m := s.w.objects[o].class_;
    if ObjectHook(p, m, x) == Some(f) then
      if m in s.per && s.per[m].info.Some? then OriginalFor(s.per[m].info.value, x) else None
    else if VtableHook(c, m, x) == Some(f) then
      match FindEntry(c, s.w, Select(c, m).value, o, m)
      case Some(id) => if id in s.w.vts then OriginalFor(s.w.vts[id].info, x) else None
      case None => if s.w.objects[o].vptr in s.w.vtables && x < |s.w.vtables[s.w.objects[o].vptr]|
        then Some(s.w.vtables[s.w.objects[o].vptr][x]) else None
    else None
  }

  /** The functions a call passes through, `n` hops at most after the first. */
  function Path(c: Config, p: ObjectConfig, s: State, o: Obj, x: nat, f: Fn, n: nat): seq<Fn>
    requires o in s.w.objects
    decreases n
  {
    [f] + if n == 0 then [] else match Calls(c, p, s, o, x, f) case None => [] case Some(g) => Path(c, p, s, o, x, g,
      n - 1)
  }

  function Listed(f: Option<Fn>): seq<Fn> {
    if f.Some? then [f.value] else []
  }

  /** No hooking function is a function of another kind. */
  lemma KindsApart(c: Config, p: ObjectConfig, m: MetaClass, v: Addr, x: nat)
    requires ValidConfig(c) && ValidObjects(c, p) && v in c.native && x < |c.native[v]|
    ensures ObjectHook(p, m, x) != Some(c.native[v][x]) && VtableHook(c, m, x) != Some(c.native[v][x])
    ensures ObjectHook(p, m, x).Some? ==> ObjectHook(p, m, x) != VtableHook(c, m, x)
  {
    if ObjectHook(p, m, x).Some? {
      HookForIsListed(p[m], x);
      var j: nat :| j < |p[m]| && p[m][j].hooking == ObjectHook(p, m, x).value;
      assert p[m][j].hooking != c.native[v][x];
      if VtableHook(c, m, x).Some? {
        var h := Select(c, m).value;
        HookForIsListed(c.specs[h].slots, x);
        var i: nat :| i < |c.specs[h].slots| && c.specs[h].slots[i].hooking == VtableHook(c, m, x).value;
        assert p[m][j].hooking != c.specs[h].slots[i].hooking;
      }
    }
    if VtableHook(c, m, x).Some? {
      var h := Select(c, m).value;
      HookForIsListed(c.specs[h].slots, x);
      var i: nat :| i < |c.specs[h].slots| && c.specs[h].slots[i].hooking == VtableHook(c, m, x).value;
      assert c.native[v][x] != c.specs[h].slots[i].hooking;
    }
  }

  /** The vtable hook that calls of a hooked object meet in slot `x`. */
  function MetHook(c: Config, s: State, m: MetaClass, x: nat): Option<Fn> {
    if m in s.per && s.per[m].patched then VtableHook(c, m, x) else None
  }

  /** The slot of the copy and the originals saved with it lead from the object hook to what the vtable held when it was
      copied. */
  lemma CopyHops(c: Config, p: ObjectConfig, s: State, o: Obj, x: nat)
    requires ObjectsInv(c, p, s) && o in s.replaced
    requires s.replaced[o] in c.native && x < |c.native[s.replaced[o]]|
    ensures o in s.w.objects && s.w.objects[o].vptr in s.w.vtables && x < |s.w.vtables[s.w.objects[o].vptr]|
    ensures var m := s.w.objects[o].class_;
      var held := (Listed(MetHook(c, s, m, x)) + [c.native[s.replaced[o]][x]])[0];
      && s.w.vtables[s.w.objects[o].vptr][x] == (Listed(ObjectHook(p, m, x)) + [held])[0]
      && (ObjectHook(p, m, x).Some? ==> Calls(c, p, s, o, x, ObjectHook(p, m, x).value) == Some(held))
  {
    assert ReplacedOk(c, s, o);
    var m, v := s.w.objects[o].class_, s.replaced[o];
    assert CopyOk(c, p, s, m);
    var base := Base(c, m, v, s.per[m].patched);
    assert p[m][0..] == p[m] && Recorded(base, p[m])[0..] == Recorded(base, p[m]);
    OriginalRecorded(base, p[m], 0, x);
  }

  /** The vtable hook of a slot leads to the native function while the vtable is hooked, and to the slot of the copy
      otherwise. */
  lemma VtableHop(c: Config, p: ObjectConfig, s: State, o: Obj, x: nat)
    requires ObjectsInv(c, p, s) && ValidObjects(c, p) && OneVtablePerClass(c) && o in s.replaced
    requires s.replaced[o] in c.native && x < |c.native[s.replaced[o]]|
    requires o in s.w.objects && s.w.objects[o].vptr in s.w.vtables && x < |s.w.vtables[s.w.objects[o].vptr]|
    requires VtableHook(c, s.w.objects[o].class_, x).Some?
    ensures Calls(c, p, s, o, x, VtableHook(c, s.w.objects[o].class_, x).value)
            == Some(if IsHooked(c, s.w, s.replaced[o]) then c.native[s.replaced[o]][x]
              else s.w.vtables[s.w.objects[o].vptr][x])
  {
    assert ReplacedOk(c, s, o);
    var m, v := s.w.objects[o].class_, s.replaced[o];
    assert CopyOk(c, p, s, m);
    KindsApart(c, p, m, v, x);
    var h := Select(c, m).value;
    FoundIffHooked(c, s.w, h, o, v);
    if IsHooked(c, s.w, v) {
      var id := FindEntry(c, s.w, h, o, m).value;
      var slots := c.specs[h].slots;
      assert slots[0..] == slots && Recorded(c.native[v], slots)[0..] == Recorded(c.native[v], slots);
      OriginalRecorded(c.native[v], slots, 0, x);
    }
  }

  /** With one vtable for each class, the lookup finds an entry exactly while that vtable is hooked, and it is its
      entry. */
  lemma FoundIffHooked(c: Config, w: World, h: HookerId, o: Obj, v: Addr)
    requires ValidConfig(c) && Inv(c, w) && OneVtablePerClass(c) && h in c.specs && o in w.objects
    requires v in c.home && c.home[v] == w.objects[o].class_ && Select(c, w.objects[o].class_) == Some(h)
    ensures FindEntry(c, w, h, o, w.objects[o].class_).Some? <==> IsHooked(c, w, v)
    ensures IsHooked(c, w, v) ==> var id := FindEntry(c, w, h, o, w.objects[o].class_).value;
      id in w.vts && EntryOk(c, w, id) && w.vts[id].vtable == v && w.vts[id].hooker == h
  {
    var m := w.objects[o].class_;
    SelectedTarget(c, m);
    SelectedRegistered(c, m, 0);
    if FindEntry(c, w, h, o, m).Some? {
      FoundEntry(c, w, h, o, m);
      var e := w.vts[FindEntry(c, w, h, o, m).value];
      assert c.home[e.vtable] == c.home[v];
    }
    if IsHooked(c, w, v) {
      var vk := VtKey(v, m, c.specs[h].depth);
      assert HookedOk(w, vk) && EntryOk(c, w, w.hooked[vk]);
      NoEntryNoGroup(c, w, h, o, m);
    }
  }

  /** A hook whose vtable is no longer hooked takes the slot of the copy for its original: the call never ends. */
  lemma {:induction false} Loops(c: Config, p: ObjectConfig, s: State, o: Obj, x: nat, f: Fn, n: nat)
    requires ObjectsInv(c, p, s) && ValidObjects(c, p) && OneVtablePerClass(c) && o in s.replaced
    requires s.replaced[o] in c.native && x < |c.native[s.replaced[o]]| && o in s.w.objects
    requires var m := s.w.objects[o].class_;
      && MetHook(c, s, m, x).Some? && !IsHooked(c, s.w, s.replaced[o])
      && (Some(f) == VtableHook(c, m, x) || Some(f) == ObjectHook(p, m, x))
    ensures |Path(c, p, s, o, x, f, n)| == n + 1 && c.native[s.replaced[o]][x] !in Path(c, p, s, o, x, f, n)
    decreases n
  {
    CopyHops(c, p, s, o, x);
    VtableHop(c, p, s, o, x);
    var m := s.w.objects[o].class_;
    KindsApart(c, p, m, s.replaced[o], x);
    if n > 0 {
      var g := Calls(c, p, s, o, x, f).value;
      Loops(c, p, s, o, x, g, n - 1);
    }
  }

  /** The first `n` hops lead through `way`, or never to the native function. */
  predicate Follows(path: seq<Fn>, n: nat, way: seq<Fn>, native: Fn, loops: bool) {
    if loops then |path| == n + 1 && native !in path else path == way
  }

  /** Where a call goes from what the vtable held in the slot when it was copied. */
  lemma HeldPath(c: Config, p: ObjectConfig, s: State, o: Obj, x: nat, n: nat)
    requires ObjectsInv(c, p, s) && ValidObjects(c, p) && OneVtablePerClass(c) && o in s.replaced && n >= 1
    requires s.replaced[o] in c.native && x < |c.native[s.replaced[o]]| && o in s.w.objects
    ensures var m, native := s.w.objects[o].class_, c.native[s.replaced[o]][x];
      var path := Path(c, p, s, o, x, (Listed(MetHook(c, s, m, x)) + [native])[0], n);
      Follows(path, n, Listed(MetHook(c, s, m, x)) + [native], native, MetHook(c, s, m, x).Some? &&
        !IsHooked(c, s.w, s.replaced[o]))
  {
    var m, native := s.w.objects[o].class_, c.native[s.replaced[o]][x];
    KindsApart(c, p, m, s.replaced[o], x);
    assert Calls(c, p, s, o, x, native) == None;
    assert Path(c, p, s, o, x, native, n) == [native] && Path(c, p, s, o, x, native, n - 1) == [native];
    if MetHook(c, s, m, x).Some? {
      CopyHops(c, p, s, o, x);
      VtableHop(c, p, s, o, x);
      if !IsHooked(c, s.w, s.replaced[o]) { Loops(c, p, s, o, x, VtableHook(c, m, x).value, n); }
    }
  }

  /**
   Where a call on slot `x` of a hooked object goes. The object hook comes first, if the slot has one. The vtable hook
   comes next exactly when the copy was made from a hooked vtable; then the native function is reached exactly while the
   vtable is hooked still, and otherwise the hooks call each other for ever.
   */
  lemma CallPath(c: Config, p: ObjectConfig, s: State, o: Obj, x: nat, n: nat)
    requires ObjectsInv(c, p, s) && ValidObjects(c, p) && OneVtablePerClass(c) && o in s.replaced && n >= 2
    requires s.replaced[o] in c.native && x < |c.native[s.replaced[o]]|
    ensures o in s.w.objects && s.w.objects[o].vptr in s.w.vtables && x < |s.w.vtables[s.w.objects[o].vptr]|
    ensures var m, native := s.w.objects[o].class_, c.native[s.replaced[o]][x];
      var path := Path(c, p, s, o, x, s.w.vtables[s.w.objects[o].vptr][x], n);
      Follows(path, n, Listed(ObjectHook(p, m, x)) + (Listed(MetHook(c, s, m, x)) + [native]), native,
              MetHook(c, s, m, x).Some? && !IsHooked(c, s.w, s.replaced[o]))
  {
    CopyHops(c, p, s, o, x);
    var m, native := s.w.objects[o].class_, c.native[s.replaced[o]][x];
    HeldPath(c, p, s, o, x, n);
    HeldPath(c, p, s, o, x, n - 1);
    KindsApart(c, p, m, s.replaced[o], x);
    var way := Listed(MetHook(c, s, m, x)) + [native];
    FromSlot(c, p, s, o, x, n, way[0], way, native, MetHook(c, s, m, x).Some? && !IsHooked(c, s.w, s.replaced[o]));
  }

  /** The object hook, if there is one, is one more hop in front of what the slot held. */
  lemma FromSlot(c: Config, p: ObjectConfig, s: State, o: Obj, x: nat, n: nat, held: Fn, way: seq<Fn>, native: Fn,
          loops: bool)
    requires o in s.w.objects && n >= 1
    requires var oh := ObjectHook(p, s.w.objects[o].class_, x);
      oh.Some? ==> Calls(c, p, s, o, x, oh.value) == Some(held) && oh != Some(native)
    requires Follows(Path(c, p, s, o, x, held, n), n, way, native, loops)
    requires Follows(Path(c, p, s, o, x, held, n - 1), n - 1, way, native, loops)
    ensures var oh := ObjectHook(p, s.w.objects[o].class_, x);
      Follows(Path(c, p, s, o, x, (Listed(oh) + [held])[0], n), n, Listed(oh) + way, native, loops)
  {
    var oh := ObjectHook(p, s.w.objects[o].class_, x);
    if oh.Some? {
      assert Path(c, p, s, o, x, oh.value, n) == [oh.value] + Path(c, p, s, o, x, held, n - 1);
    } else {
      assert Listed(oh) + way == way;
    }
  }

  /** A call passes every hook of its slot once and ends in the function the vtable held before any hook, exactly when
      the slot has no vtable hook, or the copy was made from the hooked vtable and the vtable is hooked still. */
  lemma PassesAllHooksIff(c: Config, p: ObjectConfig, s: State, o: Obj, x: nat, n: nat)
    requires ObjectsInv(c, p, s) && ValidObjects(c, p) && OneVtablePerClass(c) && o in s.replaced && n >= 2
    requires s.replaced[o] in c.native && x < |c.native[s.replaced[o]]|
    ensures o in s.w.objects && s.w.objects[o].vptr in s.w.vtables && x < |s.w.vtables[s.w.objects[o].vptr]|
    ensures var m, v := s.w.objects[o].class_, s.replaced[o];
      m in s.per &&
      (Path(c, p, s, o, x, s.w.vtables[s.w.objects[o].vptr][x], n) ==
        Listed(ObjectHook(p, m, x)) + Listed(VtableHook(c, m, x)) + [c.native[v][x]]
       <==> VtableHook(c, m, x) == None || (s.per[m].patched && IsHooked(c, s.w, v)))
  {
    assert ReplacedOk(c, s, o);
    CallPath(c, p, s, o, x, n);
    var m, native := s.w.objects[o].class_, c.native[s.replaced[o]][x];
    var whole := Listed(ObjectHook(p, m, x)) + Listed(VtableHook(c, m, x)) + [native];
    assert whole == Listed(ObjectHook(p, m, x)) + (Listed(VtableHook(c, m, x)) + [native]);
    assert whole[|whole| - 1] == native;
  }

  /** A private copy shows the vtable hook of a slot exactly when the vtable is hooked at the moment of copying. */
  lemma CopySeesVtableHookIff(c: Config, p: ObjectConfig, s: State, o: Obj, at: Addr, x: nat)
    requires ValidConfig(c) && Inv(c, s.w) && o in s.w.objects && s.w.objects[o].vptr in c.home
    requires var m, v := s.w.objects[o].class_, s.w.objects[o].vptr;
      m in s.per && m in p && v in c.native && ValidSlots(p[m], |c.native[v]|) && x < |c.native[v]| &&
        ObjectHook(p, m, x) == None && VtableHook(c, m, x).Some?
    ensures var m, v := s.w.objects[o].class_, s.w.objects[o].vptr;
      && v in s.w.vtables && |s.w.vtables[v]| == |c.native[v]|
      && (MakeCopy(c, p, s, m, v, at).w.vtables[at][x] == VtableHook(c, m, x).value <==> IsHooked(c, s.w, v))
  {
    var m, v := s.w.objects[o].class_, s.w.objects[o].vptr;
    assert ObjectOk(c, s.w, o) && SlotsOk(c, s.w, v);
    var slots := c.specs[Select(c, m).value].slots;
    HookForIsListed(slots, x);
    var i: nat :| i < |slots| && slots[i].hooking == HookFor(slots, x).value;
    assert c.native[v][x] != c.specs[Select(c, m).value].slots[i].hooking;
  }

  // ---------- what the engine and the lookup make of a private copy ----------

  /** The engine's slots are inside the copy, and its double hook test fires on the copy exactly when the copy was made
      from the hooked vtable and no object hook took the tested slot. */
  lemma DoubleHookOnCopy(c: Config, p: ObjectConfig, s: State, o: Obj, h: HookerId)
    requires ObjectsInv(c, p, s) && ValidObjects(c, p) && o in s.replaced
    requires o in s.w.objects && Select(c, s.w.objects[o].class_) == Some(h)
    ensures var m, v := s.w.objects[o].class_, s.w.objects[o].vptr;
      && h in c.specs && m in s.per && v in s.w.vtables && ValidSlots(c.specs[h].slots, |s.w.vtables[v]|)
      && (DoubleHook(s.w.vtables[v], c.specs[h].slots) <==>
            s.per[m].patched && ObjectHook(p, m, c.specs[h].slots[0].index - 1) == None)
  {
    assert ReplacedOk(c, s, o);
    var m, v := s.w.objects[o].class_, s.replaced[o];
    assert CopyOk(c, p, s, m);
    assert c.home[v] == m;
    var slots := c.specs[h].slots;
    var x := slots[0].index - 1;
    CopyHops(c, p, s, o, x);
    KindsApart(c, p, m, v, x);
    HookForListed(slots, 0);
    assert slots[0].hooking == VtableHook(c, m, x).value != c.native[v][x];
  }

  /** The lookup of an original for a hooked object: it gives a native function of the leaf class exactly when the leaf
      class has an entry, or neither hook is in the slot of the copy and the object's class did not override it. */
  lemma LookupOnCopyIff(c: Config, p: ObjectConfig, s: State, h: HookerId, o: Obj, k: nat, i: nat)
    requires ObjectsInv(c, p, s) && ValidObjects(c, p) && LooksUp(c, s.w, h, o, k, i) && o in s.replaced
    ensures var m, x := s.w.objects[o].class_, c.specs[h].slots[i].index - 1;
      var leaf, v := Ancestor(m, k).value, s.replaced[o];
      && (FindEntry(c, s.w, h, o, leaf).Some? ==>
            var id := FindEntry(c, s.w, h, o, leaf).value; id in s.w.vts && i < |s.w.vts[id].info|)
      && v in c.native && x < |c.native[v]|
      && (NativeOf(c, leaf, x, GetOriginal(c, s.w, h, o, leaf, i)) <==>
            HasOwner(c, s.w, h, leaf) ||
            (ObjectHook(p, m, x) == None && MetHook(c, s, m, x) == None && NativeOf(c, leaf, x, c.native[v][x])))
  {
    var m, x := s.w.objects[o].class_, c.specs[h].slots[i].index - 1;
    var leaf := Ancestor(m, k).value;
    GetOriginalIff(c, s.w, h, o, k, i);
    assert ReplacedOk(c, s, o) && CopyOk(c, p, s, m);
    CopyHops(c, p, s, o, x);
    if ObjectHook(p, m, x).Some? {
      ObjectHookNotNative(c, p, m, leaf, x);
    } else if MetHook(c, s, m, x).Some? {
      HookNotNative(c, Select(c, m).value, leaf, x, x);
    }
  }

  lemma ObjectHookNotNative(c: Config, p: ObjectConfig, m: MetaClass, leaf: MetaClass, x: nat)
    requires ValidConfig(c) && ValidObjects(c, p) && ObjectHook(p, m, x).Some?
    ensures !NativeOf(c, leaf, x, ObjectHook(p, m, x).value)
  {
    HookForIsListed(p[m], x);
    var j: nat :| j < |p[m]| && p[m][j].hooking == ObjectHook(p, m, x).value;
    forall v: Addr {:trigger c.home[v]} | v in c.home && v in c.native && x < |c.native[v]|
      ensures c.native[v][x] != ObjectHook(p, m, x).value {
      assert p[m][j].hooking != c.native[v][x];
    }
  }

  // ---------- the operations keep the invariant ----------

  /** A change to private vtables and to pointers leaves the vtable hooks as they are. */
  lemma PrivateChange(c: Config, w: World, u: World)
    requires Inv(c, w) && u == w.(objects := u.objects, vtables := u.vtables)
    requires forall v: Addr {:trigger u.vtables[v]} {:trigger w.vtables[v]} :: v in c.native && v in w.vtables ==>
      v in u.vtables && u.vtables[v] == w.vtables[v]
    requires forall o: Obj {:trigger ObjectOk(c, u, o)} :: o in u.objects ==> ObjectOk(c, u, o)
    requires forall o: Obj {:trigger o in u.objects} {:trigger u.objects[o]} :: o in w.objects ==>
      o in u.objects && u.objects[o].class_ == w.objects[o].class_
    ensures Inv(c, u)
  {
    forall k: TrackKey {:trigger TrackedOk(c, u, k)} | k in u.tracked
      ensures TrackedOk(c, u, k) { assert TrackedOk(c, w, k); }
    forall id: Id {:trigger EntryOk(c, u, id)} | id in u.vts
      ensures EntryOk(c, u, id) { assert EntryOk(c, w, id); SameCounts(w, u, id, GroupOf(w.vts[id])); }
    forall k: VtKey {:trigger HookedOk(u, k)} | k in u.hooked ensures HookedOk(u, k) { assert HookedOk(w, k); }
    forall g: ClassKey {:trigger AnyOk(u, g)} | g in u.anyVt ensures AnyOk(u, g) { assert AnyOk(w, g); }
    forall h: HookerId {:trigger HookerOk(c, u, h)} | h in u.hookers
      ensures HookerOk(c, u, h) { assert HookerOk(c, w, h); assert Mine(u, h) == Mine(w, h); }
    forall v: Addr {:trigger SlotsOk(c, u, v)} | v in c.native ensures SlotsOk(c, u, v) { assert SlotsOk(c, w, v); }
  }

  /** The object is not hooked and uses a vtable of its class. */
  ghost predicate ReadyFor(c: Config, p: ObjectConfig, s: State, o: Obj) {
    && o in s.w.objects && o !in s.replaced
    && var m, v := s.w.objects[o].class_, s.w.objects[o].vptr;
    && m in s.per && m in p && v in c.home && c.home[v] == m
  }

  /** The vtable of such an object holds what the copy is to be made from. */
  lemma ReadyBase(c: Config, p: ObjectConfig, s: State, o: Obj)
    requires ObjectsInv(c, p, s) && ValidObjects(c, p) && ReadyFor(c, p, s, o)
    ensures var m, v := s.w.objects[o].class_, s.w.objects[o].vptr;
      && v in s.w.vtables && v in c.native && ValidSlots(p[m], |c.native[v]|)
      && (IsHooked(c, s.w, v) ==> Select(c, m).Some? && Select(c, m).value in c.specs)
      && s.w.vtables[v] == Base(c, m, v, IsHooked(c, s.w, v))
  {
    var m, v := s.w.objects[o].class_, s.w.objects[o].vptr;
    assert SlotsOk(c, s.w, v) && c.home[v] == m;
    assert ValidSlots(p[m], |c.native[v]|);
  }

  lemma CopyMade(c: Config, p: ObjectConfig, s: State, u: State, o: Obj, m: MetaClass, v: Addr, at: Addr, n: MetaClass)
    requires ValidConfig(c) && m in s.per && s.per[m].copy == None && at !in s.w.vtables && at !in c.native
    requires m in p && v in c.home && c.home[v] == m && v in s.w.vtables && ValidSlots(p[m], |c.native[v]|)
    requires (IsHooked(c, s.w, v) ==> Select(c, m).Some? && Select(c, m).value in c.specs) &&
      s.w.vtables[v] == Base(c, m, v, IsHooked(c, s.w, v))
    requires u == MakeCopy(c, p, s, m, v, at) && n in s.per && CopyOk(c, p, s, n)
    ensures CopyOk(c, p, u, n)
  {
    assert Hooked(u, n) == Hooked(s, n);
  }

  lemma MakeCopyKeeps(c: Config, p: ObjectConfig, s: State, o: Obj, at: Addr)
    requires ObjectsInv(c, p, s) && ValidObjects(c, p) && ReadyFor(c, p, s, o)
    requires s.per[s.w.objects[o].class_].copy == None && at !in s.w.vtables && at !in c.native
    ensures var m, v := s.w.objects[o].class_, s.w.objects[o].vptr;
      && v in s.w.vtables && (forall i: nat {:trigger p[m][i]} :: i < |p[m]| ==> 1 <= p[m][i].index <= |s.w.vtables[v]|)
      && ObjectsInv(c, p, MakeCopy(c, p, s, m, v, at)) && ReadyFor(c, p, MakeCopy(c, p, s, m, v, at), o)
  {
    ReadyBase(c, p, s, o);
    var m, v := s.w.objects[o].class_, s.w.objects[o].vptr;
    var u := MakeCopy(c, p, s, m, v, at);
    forall x: Obj {:trigger ObjectOk(c, u.w, x)} | x in u.w.objects
      ensures ObjectOk(c, u.w, x) { assert ObjectOk(c, s.w, x); }
    PrivateChange(c, s.w, u.w);
    forall n: MetaClass {:trigger CopyOk(c, p, u, n)} | n in u.per ensures CopyOk(c, p, u, n) {
      assert CopyOk(c, p, s, n);
      CopyMade(c, p, s, u, o, m, v, at, n);
    }
    forall x: Obj {:trigger ReplacedOk(c, u, x)} | x in u.replaced
      ensures ReplacedOk(c, u, x) { assert ReplacedOk(c, s, x); }
    forall x: Obj, n: MetaClass {:trigger PlainOk(u, x, n)}
      ensures PlainOk(u, x, n) { MadePlain(c, p, s, m, v, at, x, n); }
    forall n: MetaClass, l: MetaClass {:trigger CopiesApart(u, n, l)}
      ensures CopiesApart(u, n, l) { MadeApart(c, p, s, m, v, at, n, l); }
  }

  lemma MadePlain(c: Config, p: ObjectConfig, s: State, m: MetaClass, v: Addr, at: Addr, x: Obj, n: MetaClass)
    requires ObjectsInv(c, p, s) && m in s.per && m in p && v in s.w.vtables && at !in s.w.vtables
    requires ValidSlots(p[m], |s.w.vtables[v]|)
    ensures PlainOk(MakeCopy(c, p, s, m, v, at), x, n)
  {
    assert PlainOk(s, x, n);
    if x in s.w.objects { assert ObjectOk(c, s.w, x); }
  }

  lemma MadeApart(c: Config, p: ObjectConfig, s: State, m: MetaClass, v: Addr, at: Addr, n: MetaClass, l: MetaClass)
    requires ObjectsInv(c, p, s) && m in s.per && m in p && v in s.w.vtables && at !in s.w.vtables
    requires ValidSlots(p[m], |s.w.vtables[v]|)
    ensures CopiesApart(MakeCopy(c, p, s, m, v, at), n, l)
  {
    assert CopiesApart(s, n, l);
    if n in s.per { assert CopyOk(c, p, s, n); }
    if l in s.per { assert CopyOk(c, p, s, l); }
  }

  lemma ReplacedWorld(c: Config, p: ObjectConfig, s: State, o: Obj)
    requires ObjectsInv(c, p, s) && ReadyFor(c, p, s, o) && s.per[s.w.objects[o].class_].copy.Some?
    ensures Inv(c, Replace(s, o).w)
  {
    var u := Replace(s, o);
    assert CopyOk(c, p, s, s.w.objects[o].class_);
    forall x: Obj {:trigger ObjectOk(c, u.w, x)} | x in u.w.objects
      ensures ObjectOk(c, u.w, x) { assert ObjectOk(c, s.w, x); }
    PrivateChange(c, s.w, u.w);
  }

  lemma ReplacedCopy(c: Config, p: ObjectConfig, s: State, u: State, o: Obj, n: MetaClass)
    requires ObjectsInv(c, p, s) && ReadyFor(c, p, s, o) && s.per[s.w.objects[o].class_].copy.Some?
    requires u == Replace(s, o) && n in u.per
    ensures CopyOk(c, p, u, n)
  {
    assert CopyOk(c, p, s, n);
    HookedWith(s, o, n);
  }

  lemma HookedWith(s: State, o: Obj, n: MetaClass)
    requires o in s.w.objects && s.w.objects[o].class_ in s.per && s.per[s.w.objects[o].class_].copy.Some?
    requires o !in s.replaced
    ensures |Hooked(Replace(s, o), n)| == |Hooked(s, n)| + if n == s.w.objects[o].class_ then 1 else 0
  {
    HookedGains(s, Replace(s, o), o, n);
  }

  /** One more object of its class is hooked. */
  lemma HookedGains(s: State, u: State, o: Obj, n: MetaClass)
    requires o in s.w.objects && o !in s.replaced && o in u.w.objects && o in u.replaced
    requires u.replaced == s.replaced[o := u.replaced[o]] && u.w.objects == s.w.objects[o := u.w.objects[o]]
    requires u.w.objects[o].class_ == s.w.objects[o].class_
    ensures Hooked(u, n) == Hooked(s, n) + if n == s.w.objects[o].class_ then {o} else {}
    ensures |Hooked(u, n)| == |Hooked(s, n)| + if n == s.w.objects[o].class_ then 1 else 0
  {
    var was, now := Hooked(s, n), Hooked(u, n);
    assert o !in was;
    if n == s.w.objects[o].class_ {
      assert now == was + {o};
    } else {
      assert now == was;
    }
  }

  lemma ReplacedObject(c: Config, p: ObjectConfig, s: State, u: State, o: Obj, x: Obj)
    requires ObjectsInv(c, p, s) && ReadyFor(c, p, s, o) && OneVtablePerClass(c) &&
      s.per[s.w.objects[o].class_].copy.Some?
    requires u == Replace(s, o) && x in u.replaced
    ensures ReplacedOk(c, u, x)
  {
    var m := s.w.objects[o].class_;
    if x == o {
      assert CopyOk(c, p, s, m);
      assert c.home[s.w.objects[o].vptr] == c.home[s.per[m].original.value];
    } else {
      assert ReplacedOk(c, s, x);
    }
  }

  lemma ReplaceKeeps(c: Config, p: ObjectConfig, s: State, o: Obj)
    requires ObjectsInv(c, p, s) && ReadyFor(c, p, s, o) && OneVtablePerClass(c) &&
      s.per[s.w.objects[o].class_].copy.Some?
    ensures ObjectsInv(c, p, Replace(s, o))
  {
    var u := Replace(s, o);
    ReplacedWorld(c, p, s, o);
    forall n: MetaClass {:trigger CopyOk(c, p, u, n)} | n in u.per
      ensures CopyOk(c, p, u, n) { ReplacedCopy(c, p, s, u, o, n); }
    forall x: Obj {:trigger ReplacedOk(c, u, x)} | x in u.replaced
      ensures ReplacedOk(c, u, x) { ReplacedObject(c, p, s, u, o, x); }
    forall x: Obj, n: MetaClass {:trigger PlainOk(u, x, n)} ensures PlainOk(u, x, n) { assert PlainOk(s, x, n); }
    forall n: MetaClass, l: MetaClass {:trigger CopiesApart(u, n, l)}
      ensures CopiesApart(u, n, l) { assert CopiesApart(s, n, l); }
  }

  /** The slots to patch are inside the vtable the object uses, its copy or a vtable of its class. */
  lemma SlotsInside(c: Config, p: ObjectConfig, s: State, o: Obj)
    requires ObjectsInv(c, p, s) && ValidObjects(c, p) && o in s.w.objects && (o in s.replaced || ReadyFor(c, p, s, o))
    ensures var m, v := s.w.objects[o].class_, s.w.objects[o].vptr;
      m in s.per && m in p && v in s.w.vtables && ValidSlots(p[m], |s.w.vtables[v]|)
  {
    if o in s.replaced {
      assert ReplacedOk(c, s, o) && CopyOk(c, p, s, s.w.objects[o].class_);
    } else {
      ReadyBase(c, p, s, o);
    }
  }

  predicate HasCopy(s: State, o: Obj) {
    && o in s.w.objects && s.w.objects[o].class_ in s.per
    && s.per[s.w.objects[o].class_].copy.Some?
  }

  /** A table entry that cannot be made strikes every first hook of an object, memory for the copy only the first of a
      class. */
  predicate FaultStrikes(s: State, o: Obj, fault: Fault) {
    fault == InsertionFails || (fault == AllocationFails && !HasCopy(s, o))
  }

  /** Nothing but object `o`, its class's hooker and the private copy of that class differs. */
  ghost predicate OnlyOf(s: State, u: State, o: Obj)
    requires o in s.w.objects
  {
    && u.w == s.w.(objects := u.w.objects, vtables := u.w.vtables) && u.w.objects.Keys == s.w.objects.Keys
    && (forall x: Obj {:trigger u.w.objects[x]} :: x in u.w.objects && x != o ==> u.w.objects[x] == s.w.objects[x])
    && u.w.objects[o] == s.w.objects[o].(vptr := u.w.objects[o].vptr)
    && u.per.Keys == s.per.Keys
    && (forall n: MetaClass {:trigger u.per[n]} :: n in u.per && n != s.w.objects[o].class_ ==> u.per[n] == s.per[n])
    && (forall v: Addr {:trigger u.w.vtables[v]} :: v in u.w.vtables && v in s.w.vtables ==>
      u.w.vtables[v] == s.w.vtables[v])
  }

  /** A private copy that is there stays as it is. */
  ghost predicate KeepsCopy(s: State, u: State, o: Obj) {
    HasCopy(s, o) ==>
      && u.w.vtables == s.w.vtables && HasCopy(u, o) && u.w.objects[o].class_ == s.w.objects[o].class_
      && var hk := s.per[s.w.objects[o].class_];
      u.per[s.w.objects[o].class_] == hk.(counter := u.per[s.w.objects[o].class_].counter)
  }

  lemma MakeCopyTouches(c: Config, p: ObjectConfig, s: State, o: Obj, m: MetaClass, v: Addr, at: Addr)
    requires o in s.w.objects && s.w.objects[o].class_ == m && v in s.w.vtables && at !in s.w.vtables
    requires m in s.per && m in p && forall i: nat {:trigger p[m][i]} :: i < |p[m]| ==>
      1 <= p[m][i].index <= |s.w.vtables[v]|
    ensures var u := MakeCopy(c, p, s, m, v, at);
      OnlyOf(s, u, o) && s.w.vtables.Keys <= u.w.vtables.Keys && u.w.objects == s.w.objects
  {
  }

  lemma ReplaceTouches(s: State, o: Obj)
    requires HasCopy(s, o)
    ensures OnlyOf(s, Replace(s, o), o) && Replace(s, o).w.vtables == s.w.vtables && KeepsCopy(s, Replace(s, o), o)
  {
  }

  lemma TouchesBoth(s: State, t: State, u: State, o: Obj)
    requires o in s.w.objects && o in t.w.objects && OnlyOf(s, t, o) && OnlyOf(t, u, o)
    requires s.w.vtables.Keys <= t.w.vtables.Keys
    ensures OnlyOf(s, u, o)
  {
  }

  /** What hooking can come to: nothing, a copy made, the object replaced, or both. */
  lemma HookComesTo(c: Config, p: ObjectConfig, s: State, o: Obj, fault: Fault, at: Addr, t: State)
    requires o in s.w.objects && s.w.objects[o].vptr in s.w.vtables
    requires var m := s.w.objects[o].class_;
      m in s.per && m in p && forall i: nat {:trigger p[m][i]} :: i < |p[m]| ==>
        1 <= p[m][i].index <= |s.w.vtables[s.w.objects[o].vptr]|
    requires t == MakeCopy(c, p, s, s.w.objects[o].class_, s.w.objects[o].vptr, at)
    ensures HasCopy(t, o)
    ensures var u := HookObject(c, p, s, o, fault, at).0;
      u == s || (if HasCopy(s, o) then u == Replace(s, o) else u == t || u == Replace(t, o))
  {
  }

  /** The private copy is made at an address nothing else has, and nothing else is touched. */
  lemma HookTouches(c: Config, p: ObjectConfig, s: State, o: Obj, fault: Fault, at: Addr)
    requires o in s.w.objects && s.w.objects[o].vptr in s.w.vtables && at !in s.w.vtables
    requires var m := s.w.objects[o].class_;
      m in s.per && m in p && forall i: nat {:trigger p[m][i]} :: i < |p[m]| ==>
        1 <= p[m][i].index <= |s.w.vtables[s.w.objects[o].vptr]|
    ensures var u := HookObject(c, p, s, o, fault, at).0;
      OnlyOf(s, u, o) && s.w.vtables.Keys <= u.w.vtables.Keys && KeepsCopy(s, u, o)
  {
    var t := MakeCopy(c, p, s, s.w.objects[o].class_, s.w.objects[o].vptr, at);
    HookComesTo(c, p, s, o, fault, at, t);
    MakeCopyTouches(c, p, s, o, s.w.objects[o].class_, s.w.objects[o].vptr, at);
    MadeAndReplaced(s, t, HookObject(c, p, s, o, fault, at).0, o);
  }

  lemma MadeAndReplaced(s: State, t: State, u: State, o: Obj)
    requires o in s.w.objects && OnlyOf(s, t, o) && HasCopy(t, o) && s.w.vtables.Keys <= t.w.vtables.Keys
    requires u == s || (if HasCopy(s, o) then u == Replace(s, o) else u == t || u == Replace(t, o))
    ensures OnlyOf(s, u, o) && s.w.vtables.Keys <= u.w.vtables.Keys && KeepsCopy(s, u, o)
  {
    ReplaceTouches(t, o);
    TouchesBoth(s, t, Replace(t, o), o);
    if HasCopy(s, o) { ReplaceTouches(s, o); }
  }

  /** Hooking an object keeps everything, whatever fails; when nothing fails, the object is hooked. An object that is
      hooked already stays as it is. */
  lemma HookObjectKeeps(c: Config, p: ObjectConfig, s: State, o: Obj, fault: Fault, at: Addr)
    requires ObjectsInv(c, p, s) && ValidObjects(c, p) && OneVtablePerClass(c)
    requires o in s.w.objects && (o in s.replaced || ReadyFor(c, p, s, o))
    requires at !in s.w.vtables && at !in c.native
    ensures s.w.objects[o].class_ in s.per && s.w.objects[o].class_ in p && s.w.objects[o].vptr in s.w.vtables
    ensures var m := s.w.objects[o].class_; forall i: nat {:trigger p[m][i]} :: i < |p[m]| ==>
      1 <= p[m][i].index <= |s.w.vtables[s.w.objects[o].vptr]|
    ensures var (u, status) := HookObject(c, p, s, o, fault, at);
      && ObjectsInv(c, p, u) && (status == Success <==> o in u.replaced)
      && (status == (if o !in s.replaced && FaultStrikes(s, o, fault) then NoMemory else Success))
      && (o !in s.replaced ==>
            (u.per[s.w.objects[o].class_].copy == None <==> !HasCopy(s, o) && fault == AllocationFails))
      && (o in s.replaced ==> u == s)
      && OnlyOf(s, u, o) && s.w.vtables.Keys <= u.w.vtables.Keys && KeepsCopy(s, u, o)
      && (o !in s.replaced && status == Success ==> u.replaced == s.replaced[o := s.w.objects[o].vptr])
      && (status != Success ==> u.replaced == s.replaced && u.w.objects == s.w.objects)
  {
    SlotsInside(c, p, s, o);
    HookTouches(c, p, s, o, fault, at);
    if o !in s.replaced { FirstHookKeeps(c, p, s, o, fault, at); }
  }

  /** What hooking comes to for an object that does not use the copy yet. */
  function FirstHook(s: State, t: State, o: Obj, fault: Fault): (State, Status)
    requires HasCopy(t, o)
  {
    if FaultStrikes(s, o, fault) then (if HasCopy(s, o) || fault == AllocationFails then s else t, NoMemory)
    else (Replace(if HasCopy(s, o) then s else t, o), Success)
  }

  lemma HookIsFirst(c: Config, p: ObjectConfig, s: State, o: Obj, fault: Fault, at: Addr, t: State)
    requires o in s.w.objects && s.w.objects[o].vptr in s.w.vtables && at !in s.w.vtables
    requires var m := s.w.objects[o].class_;
      m in s.per && m in p && forall i: nat {:trigger p[m][i]} :: i < |p[m]| ==>
        1 <= p[m][i].index <= |s.w.vtables[s.w.objects[o].vptr]|
    requires t == MakeCopy(c, p, s, s.w.objects[o].class_, s.w.objects[o].vptr, at)
    requires o !in s.replaced && s.per[s.w.objects[o].class_].copy != Some(s.w.objects[o].vptr)
    ensures HasCopy(t, o) && t.per.Keys == s.per.Keys && t.w.objects == s.w.objects && t.replaced == s.replaced
    ensures HookObject(c, p, s, o, fault, at) == FirstHook(s, t, o, fault)
  {
  }

  /** The same for an object that is not hooked yet. */
  lemma FirstHookKeeps(c: Config, p: ObjectConfig, s: State, o: Obj, fault: Fault, at: Addr)
    requires ObjectsInv(c, p, s) && ValidObjects(c, p) && OneVtablePerClass(c) && ReadyFor(c, p, s, o)
    requires at !in s.w.vtables && at !in c.native
    ensures s.w.objects[o].vptr in s.w.vtables
    ensures var m := s.w.objects[o].class_; forall i: nat {:trigger p[m][i]} :: i < |p[m]| ==>
      1 <= p[m][i].index <= |s.w.vtables[s.w.objects[o].vptr]|
    ensures var (u, status) := HookObject(c, p, s, o, fault, at);
      && ObjectsInv(c, p, u) && (status == Success <==> o in u.replaced)
      && (status == (if FaultStrikes(s, o, fault) then NoMemory else Success))
      && (u.per[s.w.objects[o].class_].copy == None <==> !HasCopy(s, o) && fault == AllocationFails)
      && (status == Success ==> u.replaced == s.replaced[o := s.w.objects[o].vptr])
      && (status != Success ==> u.replaced == s.replaced && u.w.objects == s.w.objects)
  {
    ReadyBase(c, p, s, o);
    var m, v := s.w.objects[o].class_, s.w.objects[o].vptr;
    assert CopyOk(c, p, s, m) && PlainOk(s, o, m);
    var t := MakeCopy(c, p, s, m, v, at);
    HookIsFirst(c, p, s, o, fault, at, t);
    FirstHookLeaves(c, p, s, o, fault, at, t);
  }

  lemma FirstHookLeaves(c: Config, p: ObjectConfig, s: State, o: Obj, fault: Fault, at: Addr, t: State)
    requires ObjectsInv(c, p, s) && ValidObjects(c, p) && ReadyFor(c, p, s, o) && OneVtablePerClass(c)
    requires at !in s.w.vtables && at !in c.native && s.w.objects[o].vptr in s.w.vtables
    requires var m := s.w.objects[o].class_; forall i: nat {:trigger p[m][i]} :: i < |p[m]| ==>
      1 <= p[m][i].index <= |s.w.vtables[s.w.objects[o].vptr]|
    requires t == MakeCopy(c, p, s, s.w.objects[o].class_, s.w.objects[o].vptr, at) && HasCopy(t, o)
    requires t.w.objects == s.w.objects && t.replaced == s.replaced
    ensures var u := FirstHook(s, t, o, fault).0;
      && ObjectsInv(c, p, u) && s.w.objects[o].class_ in u.per && u.replaced == (if FaultStrikes(s, o, fault)
        then s.replaced else s.replaced[o := s.w.objects[o].vptr])
      && (u.per[s.w.objects[o].class_].copy == None <==> !HasCopy(s, o) && fault == AllocationFails)
      && (FaultStrikes(s, o, fault) ==> u.w.objects == s.w.objects)
  {
    if HasCopy(s, o) {
      if !FaultStrikes(s, o, fault) { ReplaceKeeps(c, p, s, o); }
    } else if fault != AllocationFails {
      MakeCopyKeeps(c, p, s, o, at);
      if !FaultStrikes(s, o, fault) { ReplaceKeeps(c, p, t, o); }
    }
  }

  /** What a hooked object is, and how many others its class has. */
  lemma UnhookFacts(c: Config, p: ObjectConfig, s: State, o: Obj)
    requires ObjectsInv(c, p, s) && o in s.replaced
    ensures ReplacedOk(c, s, o)
    ensures var m := s.w.objects[o].class_;
      && CopyOk(c, p, s, m) && Hooked(UnhookObject(s, o), m) == Hooked(s, m) - {o} && o in Hooked(s, m)
      && s.per[m].counter - 1 == |Hooked(UnhookObject(s, o), m)|
      && s.replaced[o] in c.home && c.home[s.replaced[o]] == m && s.replaced[o] in s.w.vtables && s.per[m].copy.Some?
  {
    assert ReplacedOk(c, s, o);
    var m := s.w.objects[o].class_;
    assert CopyOk(c, p, s, m) && SlotsOk(c, s.w, s.replaced[o]);
    HookedWithout(s, o);
  }

  lemma HookedWithout(s: State, o: Obj)
    requires o in s.replaced && o in s.w.objects && s.w.objects[o].class_ in s.per
    ensures var m := s.w.objects[o].class_;
      && Hooked(UnhookObject(s, o), m) == Hooked(s, m) - {o} && o in Hooked(s, m)
      && |Hooked(s, m) - {o}| == |Hooked(s, m)| - 1
  {
    HookedLoses(s, UnhookObject(s, o), o);
  }

  /** One object of its class is no longer hooked. */
  lemma HookedLoses(s: State, u: State, o: Obj)
    requires o in s.replaced && o in s.w.objects && u.replaced == s.replaced - {o} && o in u.w.objects
    requires u.w.objects == s.w.objects[o := u.w.objects[o]]
    ensures var m := s.w.objects[o].class_;
      && Hooked(u, m) == Hooked(s, m) - {o} && o in Hooked(s, m)
      && |Hooked(s, m) - {o}| == |Hooked(s, m)| - 1
  {
    var m := s.w.objects[o].class_;
    var was, now := Hooked(s, m), Hooked(u, m);
    assert o in was;
    assert now == was - {o};
  }

  /** The step from `s` to `u` in terms of what changes; `last` tells whether the class has no other hooked object. */
  ghost predicate Unhooks(s: State, u: State, o: Obj, m: MetaClass, v: Addr, last: bool)
    requires o in s.replaced && o in s.w.objects && m in s.per && s.per[m].copy.Some?
  {
    && s.w.objects[o].class_ == m && s.replaced[o] == v
    && u.replaced == s.replaced - {o}
    && u.w == s.w.(objects := s.w.objects[o := s.w.objects[o].(vptr := v)], vtables := u.w.vtables)
    && u.w.vtables == (if last then s.w.vtables - {s.per[m].copy.value} else s.w.vtables)
    && u.per == s.per[m := if last then ObjectHooker(None, None, None, 0, false)
      else s.per[m].(counter := s.per[m].counter - 1)]
    && (last <==> Hooked(s, m) - {o} == {})
  }

  lemma UnhookingUnhooks(c: Config, p: ObjectConfig, s: State, o: Obj)
    requires ObjectsInv(c, p, s) && o in s.replaced
    ensures ReplacedOk(c, s, o)
    ensures var m := s.w.objects[o].class_;
      s.per[m].copy.Some? && Unhooks(s, UnhookObject(s, o), o, m, s.replaced[o], Hooked(s, m) - {o} == {})
  {
    UnhookFacts(c, p, s, o);
  }

  lemma UnhookedObject(c: Config, p: ObjectConfig, s: State, u: State, o: Obj, x: Obj)
    requires ObjectsInv(c, p, s) && o in s.replaced && o in s.w.objects && x in s.w.objects
    requires var m := s.w.objects[o].class_;
      m in s.per && s.per[m].copy.Some? && Unhooks(s, u, o, m, s.replaced[o], Hooked(s, m) - {o} == {})
    requires s.replaced[o] in c.home && c.home[s.replaced[o]] == s.w.objects[o].class_ && s.replaced[o] in s.w.vtables
    requires s.per[s.w.objects[o].class_].copy.value !in c.native
    ensures ObjectOk(c, u.w, x)
  {
    var m := s.w.objects[o].class_;
    assert ObjectOk(c, s.w, x) && PlainOk(s, x, m);
    if x in s.replaced && x != o {
      assert ReplacedOk(c, s, x) && CopiesApart(s, s.w.objects[x].class_, m);
      assert s.w.objects[x].class_ == m ==> x in Hooked(s, m) - {o};
    }
  }

  lemma UnhookedWorld(c: Config, p: ObjectConfig, s: State, u: State, o: Obj)
    requires ObjectsInv(c, p, s) && o in s.replaced && o in s.w.objects && s.w.objects[o].class_ in s.per &&
      u == UnhookObject(s, o)
    ensures Inv(c, u.w)
  {
    UnhookFacts(c, p, s, o);
    UnhookingUnhooks(c, p, s, o);
    forall x: Obj {:trigger ObjectOk(c, u.w, x)} | x in u.w.objects
      ensures ObjectOk(c, u.w, x) { UnhookedObject(c, p, s, u, o, x); }
    PrivateChange(c, s.w, u.w);
  }

  lemma UnhookedCopy(c: Config, p: ObjectConfig, s: State, u: State, o: Obj, m: MetaClass, last: bool, n: MetaClass)
    requires ValidConfig(c) && o in s.replaced && o in s.w.objects && m in s.per && s.per[m].copy.Some? &&
      Unhooks(s, u, o, m, s.replaced[o], last)
    requires n in s.per && CopyOk(c, p, s, n) && CopiesApart(s, m, n) && m in p && o in Hooked(s, m)
    ensures CopyOk(c, p, u, n)
  {
    assert Hooked(u, n) == if n == m then Hooked(s, n) - {o} else Hooked(s, n);
  }

  lemma UnhookedOther(c: Config, p: ObjectConfig, s: State, u: State, o: Obj, m: MetaClass, last: bool, x: Obj)
    requires ValidConfig(c) && o in s.replaced && o in s.w.objects && m in s.per && s.per[m].copy.Some? &&
      Unhooks(s, u, o, m, s.replaced[o], last)
    requires x in u.replaced && x in s.replaced && ReplacedOk(c, s, x)
    ensures ReplacedOk(c, u, x)
  {
    assert s.w.objects[x].class_ == m ==> x in Hooked(s, m) - {o};
  }

  lemma UnhookedPlain(s: State, u: State, o: Obj, m: MetaClass, v: Addr, last: bool, x: Obj, n: MetaClass)
    requires o in s.replaced && o in s.w.objects && m in s.per && s.per[m].copy.Some? && Unhooks(s, u, o, m, v, last)
    requires PlainOk(s, x, n) && (n in s.per ==> s.per[n].copy != Some(v))
    ensures PlainOk(u, x, n)
  {
  }

  lemma UnhookedApart(s: State, u: State, o: Obj, m: MetaClass, v: Addr, last: bool, n: MetaClass, l: MetaClass)
    requires o in s.replaced && o in s.w.objects && m in s.per && s.per[m].copy.Some? && Unhooks(s, u, o, m, v, last)
    requires CopiesApart(s, n, l)
    ensures CopiesApart(u, n, l)
  {
  }

  lemma UnhookedParts(c: Config, p: ObjectConfig, s: State, u: State, o: Obj, m: MetaClass, last: bool)
    requires ObjectsInv(c, p, s) && o in s.replaced && o in s.w.objects && m in s.per && s.per[m].copy.Some? &&
      Unhooks(s, u, o, m, s.replaced[o], last)
    requires Inv(c, u.w) && s.replaced[o] in c.native
    ensures ObjectsInv(c, p, u)
  {
    assert CopyOk(c, p, s, m) && o in Hooked(s, m);
    forall n: MetaClass {:trigger CopyOk(c, p, u, n)} | n in u.per ensures CopyOk(c, p, u, n) {
      assert CopyOk(c, p, s, n) && CopiesApart(s, m, n);
      UnhookedCopy(c, p, s, u, o, m, last, n);
    }
    forall x: Obj {:trigger ReplacedOk(c, u, x)} | x in u.replaced ensures ReplacedOk(c, u, x) {
      assert ReplacedOk(c, s, x);
      UnhookedOther(c, p, s, u, o, m, last, x);
    }
    forall x: Obj, n: MetaClass {:trigger PlainOk(u, x, n)} ensures PlainOk(u, x, n) {
      assert PlainOk(s, x, n);
      if n in s.per { assert CopyOk(c, p, s, n); }
      UnhookedPlain(s, u, o, m, s.replaced[o], last, x, n);
    }
    forall n: MetaClass, l: MetaClass {:trigger CopiesApart(u, n, l)} ensures CopiesApart(u, n, l) {
      assert CopiesApart(s, n, l);
      UnhookedApart(s, u, o, m, s.replaced[o], last, n, l);
    }
  }

  /** Unhooking gives an object its own vtable back; the copy and the saved originals go exactly with the last
      object. */
  lemma UnhookObjectKeeps(c: Config, p: ObjectConfig, s: State, o: Obj)
    requires ObjectsInv(c, p, s) && o in s.w.objects && s.w.objects[o].class_ in s.per
    ensures ObjectsInv(c, p, UnhookObject(s, o)) && UnhookObject(s, o).replaced == s.replaced - {o}
    ensures var m, u := s.w.objects[o].class_, UnhookObject(s, o);
      o in s.replaced ==>
        && u.w.objects[o] == s.w.objects[o].(vptr := s.replaced[o])
        && s.replaced[o] in c.home && c.home[s.replaced[o]] == m
        && (Hooked(u, m) == {} <==> u.per[m].copy == None) && (Hooked(u, m) == {} <==> u.per[m].info == None)
        && s.per[m].copy.Some? && (Hooked(u, m) == {} <==> s.per[m].copy.value !in u.w.vtables)
    ensures o !in s.replaced ==> UnhookObject(s, o) == s
    ensures OnlyOf(s, UnhookObject(s, o), o)
    ensures forall v: Addr {:trigger v in UnhookObject(s, o).w.vtables} ::
      v in s.w.vtables && Some(v) != s.per[s.w.objects[o].class_].copy ==> v in UnhookObject(s, o).w.vtables
  {
    if o in s.replaced {
      var u := UnhookObject(s, o);
      UnhookFacts(c, p, s, o);
      UnhookingUnhooks(c, p, s, o);
      UnhookedWorld(c, p, s, u, o);
      UnhookedParts(c, p, s, u, o, s.w.objects[o].class_, Hooked(s, s.w.objects[o].class_) - {o} == {});
    }
  }
}
