/** Whole runs of the hook manager and what they leave behind. */
module HookRuns {
  import opened HookModel
  import opened HookProofs
  import opened Options

  // ---------- runs ----------

  /** The erroneous double hook test: the first listed slot already holds the hooking function. */
  predicate DoubleHook(table: seq<Fn>, slots: seq<SlotHook>) {
    slots != [] && 1 <= slots[0].index <= |table| && slots[0].hooking == table[slots[0].index - 1]
  }

  /** Which kind of call fails on the way, if any. */
  datatype Fault = NoFault | AllocationFails | InsertionFails

  /** Hooking an object's vtable, once the hooker knows its class; `id` is the address of the new vtable entry, if one
      is made. */
  function HookNoted(c: Config, w: World, h: HookerId, o: Obj, fault: Fault, id: Id): (World, Status)
    requires ValidConfig(c) && Inv(c, w) && EngineHooks(c, w, h, o)
  {
    var k, vk := TrackKeyOf(c, w, h, o), VtKeyOf(c, w, h, o);
    if k in w.tracked then (w, Success)
    else if vk in w.hooked then
      TrackKeeps(c, w, h, o);
      if fault != NoFault then (w, NoMemory) else (Track(w, h, k, w.hooked[vk]), Success)
    else
      OwnerDefined(c, w, h, o);
      if DoubleHook(w.vtables[vk.vtable], c.specs[h].slots) || fault == InsertionFails then (w, Error)
      else if fault == AllocationFails then (w, NoMemory)
      else (Install(c, w, h, k, vk.vtable, id), Success)
  }

  function Hook(c: Config, w: World, h: HookerId, o: Obj, fault: Fault, id: Id): (World, Status)
    requires ValidConfig(c) && Inv(c, w) && EngineHooks(c, w, h, o)
  {
    NoteClassKeeps(c, w, h, o);
    HookNoted(c, NoteClass(c, w, h, o), h, o, fault, id)
  }

  /** Whether a hook by the engine leaves the books right: the object uses a vtable of its class, or it is tracked
      already, or a call fails, or the double hook test fires on the private vtable. */
  predicate KeepsBooks(c: Config, w: World, h: HookerId, o: Obj, fault: Fault)
    requires o in w.objects && h in c.specs && w.objects[o].vptr in w.vtables
  {
    || w.objects[o].vptr in c.home
    || TrackKeyOf(c, w, h, o) in w.tracked
    || fault != NoFault
    || DoubleHook(w.vtables[w.objects[o].vptr], c.specs[h].slots)
  }

  /** The hook changes nothing: a call fails, or the private vtable of the object looks hooked. */
  predicate Refused(c: Config, w: World, h: HookerId, o: Obj, fault: Fault)
    requires o in w.objects && h in c.specs && w.objects[o].vptr in w.vtables
  {
    && TrackKeyOf(c, w, h, o) !in w.tracked
    && (fault != NoFault ||
        (w.objects[o].vptr !in c.home && DoubleHook(w.vtables[w.objects[o].vptr], c.specs[h].slots)))
  }

  /** A refused hook fails for lack of memory: always when the vtable is hooked already, otherwise when the entry for
      the
      vtable cannot be allocated; all other failures are plain errors. */
  predicate NoMemoryLeft(c: Config, w: World, h: HookerId, o: Obj, fault: Fault)
    requires o in w.objects && h in c.specs && w.objects[o].vptr in w.vtables
  {
    || VtKeyOf(c, w, h, o) in w.hooked
    || (fault == AllocationFails &&
        (w.objects[o].vptr in c.home || !DoubleHook(w.vtables[w.objects[o].vptr], c.specs[h].slots)))
  }

  /** Only vtables of the system have entries. */
  lemma HookedAtHome(c: Config, w: World, k: VtKey)
    requires Inv(c, w)
    ensures k in w.hooked ==> k.vtable in c.home
  {
    if k in w.hooked { assert HookedOk(w, k) && EntryOk(c, w, w.hooked[k]); }
  }

  lemma HookNotedKeeps(c: Config, w: World, h: HookerId, o: Obj, fault: Fault, id: Id, after: World, status: Status)
    requires ValidConfig(c) && Inv(c, w) && EngineHooks(c, w, h, o) && id !in w.vts &&
      w.hookers[h].metaClass == Some(c.specs[h].target)
    requires (after, status) == HookNoted(c, w, h, o, fault, id) && KeepsBooks(c, w, h, o, fault)
    ensures Inv(c, after)
    ensures status == Success <==> !Refused(c, w, h, o, fault)
    ensures status == NoMemory <==> Refused(c, w, h, o, fault) && NoMemoryLeft(c, w, h, o, fault)
    ensures status == Success ==> after.tracked.Keys == w.tracked.Keys + {TrackKeyOf(c, w, h, o)}
    ensures status != Success ==> after == w
  {
    var k, vk := TrackKeyOf(c, w, h, o), VtKeyOf(c, w, h, o);
    if k in w.tracked {
    } else if vk in w.hooked {
      TrackKeeps(c, w, h, o);
      HookedAtHome(c, w, vk);
    } else if vk.vtable in c.home {
      FirstOfVtableKeeps(c, w, h, o, fault, id, after, status);
    }
  }

  /** The same when the vtable is one of the class and not hooked yet. */
  lemma FirstOfVtableKeeps(c: Config, w: World, h: HookerId, o: Obj, fault: Fault, id: Id, after: World, status: Status)
    requires ValidConfig(c) && Inv(c, w) && EngineHooks(c, w, h, o) && id !in w.vts &&
      w.hookers[h].metaClass == Some(c.specs[h].target)
    requires w.objects[o].vptr in c.home
    requires TrackKeyOf(c, w, h, o) !in w.tracked && VtKeyOf(c, w, h, o) !in w.hooked
    requires (after, status) == HookNoted(c, w, h, o, fault, id)
    ensures Inv(c, after) && (status == Success <==> fault == NoFault)
    ensures status == NoMemory <==> fault == AllocationFails
    ensures if status == Success then after.tracked.Keys == w.tracked.Keys + {TrackKeyOf(c, w, h, o)} else after == w
  {
    InstallDefined(c, w, h, o);
    NoDoubleHook(c, h, VtKeyOf(c, w, h, o).vtable);
    if fault == NoFault {
      InstallKeeps(c, w, h, o, id);
    }
  }

  /** With the guard a hook keeps the bookkeeping; it fails only through a fault or the double hook test, and then
      nothing but the hooker's class pointer can have changed. */
  lemma HookKeeps(c: Config, w: World, h: HookerId, o: Obj, fault: Fault, id: Id, after: World, status: Status)
    requires ValidConfig(c) && Inv(c, w) && EngineHooks(c, w, h, o) && id !in w.vts
    requires (after, status) == Hook(c, w, h, o, fault, id) && KeepsBooks(c, w, h, o, fault)
    ensures Inv(c, after)
    ensures status == Success <==> !Refused(c, w, h, o, fault)
    ensures status == NoMemory <==> Refused(c, w, h, o, fault) && NoMemoryLeft(c, w, h, o, fault)
    ensures status == Success ==> after.tracked.Keys == w.tracked.Keys + {TrackKeyOf(c, w, h, o)}
    ensures status == Success ==> IsHooked(c, after, after.tracked[TrackKeyOf(c, w, h, o)].original)
    ensures status != Success ==> after == w.(hookers := after.hookers) && after.hookers.Keys == w.hookers.Keys
    ensures status != Success ==> forall x: HookerId {:trigger w.hookers[x]} :: x in w.hookers ==>
      after.hookers[x].counter == w.hookers[x].counter
  {
    NoteClassKeeps(c, w, h, o);
    HookNotedKeeps(c, NoteClass(c, w, h, o), h, o, fault, id, after, status);
    if status == Success { TrackedIsHooked(c, after, TrackKeyOf(c, w, h, o)); }
  }

  /** What a hook does with the guard: a refused one or one of a tracked object leaves tracked objects and vtables
      alone;
      any other one tracks the object, counts it for the hooker, and its vtable holds the hooks. */
  lemma HookGains(c: Config, w: World, h: HookerId, o: Obj, fault: Fault, id: Id)
    requires ValidConfig(c) && Inv(c, w) && EngineHooks(c, w, h, o) && id !in w.vts && KeepsBooks(c, w, h, o, fault)
    ensures var u, k, v := Hook(c, w, h, o, fault, id).0, TrackKeyOf(c, w, h, o), w.objects[o].vptr;
      && u.objects == w.objects && h in u.hookers
      && (Refused(c, w, h, o, fault) || k in w.tracked ==>
            u.tracked == w.tracked && u.vts == w.vts && u.vtables == w.vtables &&
            u.hookers[h].counter == w.hookers[h].counter)
      && (!Refused(c, w, h, o, fault) && k !in w.tracked ==>
            && k in u.tracked && u.tracked == w.tracked[k := ObjEntry(h, u.tracked[k].vtEntry, v, 1)]
            && u.hookers[h].counter == w.hookers[h].counter + 1
            && v in c.native && u.vtables == w.vtables[v := Patched(c.native[v], c.specs[h].slots)])
  {
    NoteClassKeeps(c, w, h, o);
    NotedGains(c, NoteClass(c, w, h, o), h, o, fault, id);
  }

  lemma NotedGains(c: Config, w: World, h: HookerId, o: Obj, fault: Fault, id: Id)
    requires ValidConfig(c) && Inv(c, w) && EngineHooks(c, w, h, o) && id !in w.vts && KeepsBooks(c, w, h, o, fault)
    ensures var u, k, v := HookNoted(c, w, h, o, fault, id).0, TrackKeyOf(c, w, h, o), w.objects[o].vptr;
      && u.objects == w.objects && h in u.hookers
      && (Refused(c, w, h, o, fault) || k in w.tracked ==>
            u.tracked == w.tracked && u.vts == w.vts && u.vtables == w.vtables &&
            u.hookers[h].counter == w.hookers[h].counter)
      && (!Refused(c, w, h, o, fault) && k !in w.tracked ==>
            && k in u.tracked && u.tracked == w.tracked[k := ObjEntry(h, u.tracked[k].vtEntry, v, 1)]
            && u.hookers[h].counter == w.hookers[h].counter + 1
            && v in c.native && u.vtables == w.vtables[v := Patched(c.native[v], c.specs[h].slots)])
  {
    var vk := VtKeyOf(c, w, h, o);
    HookedAtHome(c, w, vk);
    if vk in w.hooked {
      HookedVtable(c, w, h, vk);
    } else if vk.vtable in c.home {
      InstallDefined(c, w, h, o);
      NoDoubleHook(c, h, vk.vtable);
    }
  }

  /** A hooked vtable holds its hooks already. */
  lemma HookedVtable(c: Config, w: World, h: HookerId, vk: VtKey)
    requires Inv(c, w) && vk in w.hooked && Select(c, vk.class_) == Some(h) && h in c.specs
    ensures vk.vtable in c.native && vk.vtable in w.vtables
    ensures w.vtables[vk.vtable] == Patched(c.native[vk.vtable], c.specs[h].slots)
    ensures w.hooked[vk] in w.vts && w.vts[w.hooked[vk]].vtable == vk.vtable
  {
    assert HookedOk(w, vk) && EntryOk(c, w, w.hooked[vk]) && SlotsOk(c, w, vk.vtable);
  }

  /** Without the guard the private vtable of the object is taken for a new vtable of its class: it is patched and gets
      an entry of its own. */
  lemma HookBreaks(c: Config, w: World, h: HookerId, o: Obj, fault: Fault, id: Id)
    requires ValidConfig(c) && Inv(c, w) && EngineHooks(c, w, h, o) && !KeepsBooks(c, w, h, o, fault)
    ensures var (u, status) := Hook(c, w, h, o, fault, id);
      var k, vk, slots := TrackKeyOf(c, w, h, o), VtKeyOf(c, w, h, o), c.specs[h].slots;
      && !Inv(c, u) && status == Success && u.objects == w.objects
      && u.tracked == w.tracked[k := ObjEntry(h, id, vk.vtable, 1)] && u.hooked == w.hooked[vk := id]
      && id in u.vts && u.vts[id].vtable == vk.vtable && GroupOf(u.vts[id]) == ClassKey(k.class_, k.depth)
      && u.vts[id].info == Recorded(w.vtables[vk.vtable], slots) && u.vts[id].refs == 1
      && u.vtables == w.vtables[vk.vtable := Patched(w.vtables[vk.vtable], slots)]
  {
    NoteClassKeeps(c, w, h, o);
    var vk := VtKeyOf(c, w, h, o);
    var w' := NoteClass(c, w, h, o);
    HookedAtHome(c, w, vk);
    OwnerDefined(c, w', h, o);
    var u := Hook(c, w, h, o, fault, id).0;
    assert u == Install(c, w', h, TrackKeyOf(c, w, h, o), vk.vtable, id);
    assert id in u.vts && !EntryOk(c, u, id);
  }

  /** A hook by the engine keeps the bookkeeping exactly when the object uses a vtable of its class, is tracked already,
      a call fails, or the double hook test fires. */
  lemma HookKeepsIff(c: Config, w: World, h: HookerId, o: Obj, fault: Fault, id: Id)
    requires ValidConfig(c) && Inv(c, w) && EngineHooks(c, w, h, o) && id !in w.vts
    ensures Inv(c, Hook(c, w, h, o, fault, id).0) <==> KeepsBooks(c, w, h, o, fault)
  {
    if KeepsBooks(c, w, h, o, fault) {
      HookKeeps(c, w, h, o, fault, id, Hook(c, w, h, o, fault, id).0, Hook(c, w, h, o, fault, id).1);
    } else {
      HookBreaks(c, w, h, o, fault, id);
    }
  }

  lemma TrackedIsHooked(c: Config, w: World, k: TrackKey)
    requires Inv(c, w) && k in w.tracked
    ensures IsHooked(c, w, w.tracked[k].original)
  {
    assert TrackedOk(c, w, k) && EntryOk(c, w, w.tracked[k].vtEntry);
  }

  lemma NoDoubleHook(c: Config, h: HookerId, v: Addr)
    requires ValidConfig(c) && h in c.specs && v in c.native && ValidSlots(c.specs[h].slots, |c.native[v]|)
    ensures !DoubleHook(c.native[v], c.specs[h].slots)
  {
    var s := c.specs[h].slots;
    assert c.native[v][s[0].index - 1] != c.specs[h].slots[0].hooking;
  }

  /** Hooks by the engine, unhooks, and what the system does meanwhile: objects appear, untracked objects
      disappear, and an object's vtable pointer is switched to another vtable of its class or to a private one. */
  datatype Step =
    | HookStep(o: Obj, fault: Fault, id: Id)
    | UnhookStep(h: HookerId, o: Obj)
    | CreateStep(o: Obj, object: Object)
    | DestroyStep(o: Obj)
    | RepointStep(o: Obj, v: Addr)

  ghost predicate Untracked(w: World, o: Obj) {
    forall k: TrackKey {:trigger k in w.tracked} :: k in w.tracked ==> k.obj != o
  }

  ghost predicate Enabled(c: Config, w: World, s: Step) {
    match s
    case HookStep(o, _, id) =>
      o in w.objects && Select(c, w.objects[o].class_).Some? &&
        EngineHooks(c, w, Select(c, w.objects[o].class_).value, o) && id !in w.vts
    case UnhookStep(h, o) => h in w.hookers && h in c.specs && o in w.objects
    case CreateStep(o, ob) => o !in w.objects && ob.vptr in w.vtables &&
      (ob.vptr in c.home ==> c.home[ob.vptr] == ob.class_)
    case DestroyStep(o) => o in w.objects && Untracked(w, o)
    case RepointStep(o, v) => o in w.objects && v in w.vtables && (v in c.home ==> c.home[v] == w.objects[o].class_)
  }

  /** What makes a step leave the books right: a hook takes no private vtable for a new one of the class; an object is
      unhooked by the hooker that tracks it, and the owner of the NULL key is not stranded. */
  ghost predicate Sound(c: Config, w: World, s: Step)
    requires Enabled(c, w, s)
  {
    match s
    case HookStep(o, fault, _) => KeepsBooks(c, w, Select(c, w.objects[o].class_).value, o, fault)
    case UnhookStep(h, o) =>
      var k := TrackKeyOf(c, w, h, o);
      k in w.tracked ==> w.tracked[k].hooker == h && w.tracked[k].vtEntry in w.vts && !StrandsOwner(w, k)
    case _ => true
  }

  function Next(c: Config, w: World, s: Step): World
    requires ValidConfig(c) && Inv(c, w) && Enabled(c, w, s)
  {
    match s
    case HookStep(o, fault, id) => Hook(c, w, Select(c, w.objects[o].class_).value, o, fault, id).0
    case UnhookStep(h, o) => Unhook(c, w, h, o)
    case CreateStep(o, ob) => w.(objects := w.objects[o := ob])
    case DestroyStep(o) => w.(objects := w.objects - {o})
    case RepointStep(o, v) => w.(objects := w.objects[o := w.objects[o].(vptr := v)])
  }

  /** With one vtable for each class, no owner of a NULL key can be stranded. */
  lemma NeverStranded(c: Config, w: World, k: TrackKey)
    requires Inv(c, w) && OneVtablePerClass(c) && k in w.tracked
    ensures w.tracked[k].vtEntry in w.vts && !StrandsOwner(w, k)
  {
    UnhookDefined(c, w, k);
    var id := w.tracked[k].vtEntry;
    var g := GroupOf(w.vts[id]);
    assert EntryOk(c, w, id) && AnyOk(w, g) && EntryOk(c, w, w.anyVt[g]);
    assert c.home[w.vts[id].vtable] == c.home[w.vts[w.anyVt[g]].vtable];
  }

  lemma ObjectsChanged(c: Config, w: World, u: World)
    requires Inv(c, w) && u == w.(objects := u.objects)
    requires forall o: Obj {:trigger ObjectOk(c, u, o)} :: o in u.objects ==> ObjectOk(c, u, o)
    requires forall k: TrackKey {:trigger k in w.tracked} :: k in w.tracked && k.obj in w.objects ==>
      k.obj in u.objects && u.objects[k.obj].class_ == w.objects[k.obj].class_
    ensures Inv(c, u)
  {
    forall k: TrackKey {:trigger TrackedOk(c, u, k)} | k in u.tracked
      ensures TrackedOk(c, u, k) { assert TrackedOk(c, w, k); }
    forall id: Id {:trigger EntryOk(c, u, id)} | id in u.vts
      ensures EntryOk(c, u, id) { assert EntryOk(c, w, id); SameCounts(w, u, id, GroupOf(w.vts[id])); }
    forall k: VtKey {:trigger HookedOk(u, k)} | k in u.hooked ensures HookedOk(u, k) { assert HookedOk(w, k); }
    forall g: ClassKey {:trigger AnyOk(u, g)} | g in u.anyVt ensures AnyOk(u, g) { assert AnyOk(w, g); }
    forall h: HookerId {:trigger HookerOk(c, u, h)} | h in u.hookers
      ensures HookerOk(c, u, h) { assert HookerOk(c, w, h); assert Mine(u, h) == Mine(w, h); }
    forall v: Addr {:trigger SlotsOk(c, u, v)} | v in c.native ensures SlotsOk(c, u, v) { assert SlotsOk(c, w, v); }
  }

  /** The objects tracked after a sound step: a hook that is not refused adds one, an unhook takes one away. Nothing
      else
      changes them, and only the system changes objects. */
  lemma StepEffect(c: Config, w: World, s: Step)
    requires ValidConfig(c) && Inv(c, w) && Enabled(c, w, s) && Sound(c, w, s)
    ensures var u := Next(c, w, s);
      match s
      case HookStep(o, fault, _) =>
        var h := Select(c, w.objects[o].class_).value;
        && u.objects == w.objects
        && u.tracked.Keys == w.tracked.Keys + (if Refused(c, w, h, o, fault) then {} else {TrackKeyOf(c, w, h, o)})
      case UnhookStep(h, o) => u.objects == w.objects && u.tracked == w.tracked - {TrackKeyOf(c, w, h, o)}
      case CreateStep(o, ob) => u.tracked == w.tracked && u.objects == w.objects[o := ob]
      case DestroyStep(o) => u.tracked == w.tracked && u.objects == w.objects - {o}
      case RepointStep(o, v) =>
        && o in u.objects && u.tracked == w.tracked && u.objects.Keys == w.objects.Keys && u.objects[o].vptr == v
  {
    match s
    case HookStep(o, fault, id) => HookGains(c, w, Select(c, w.objects[o].class_).value, o, fault, id);
    case UnhookStep(h, o) => UnhookEffect(c, w, h, o);
    case _ =>
  }

  /** A step keeps the invariant exactly when it is sound, for any number of vtables a class. */
  lemma StepKeepsIff(c: Config, w: World, s: Step)
    requires ValidConfig(c) && Inv(c, w) && Enabled(c, w, s)
    ensures Inv(c, Next(c, w, s)) <==> Sound(c, w, s)
  {
    if s.HookStep? {
      HookKeepsIff(c, w, Select(c, w.objects[s.o].class_).value, s.o, s.fault, s.id);
    } else if s.UnhookStep? {
      UnhookKeepsIff(c, w, s.h, s.o);
    } else {
      var u := Next(c, w, s);
      forall x: Obj {:trigger ObjectOk(c, u, x)} | x in u.objects
        ensures ObjectOk(c, u, x) { if x in w.objects { assert ObjectOk(c, w, x); } }
      ObjectsChanged(c, w, u);
    }
  }

  ghost predicate CanRun(c: Config, w: World, steps: seq<Step>)
    requires ValidConfig(c) && Inv(c, w)
    decreases |steps|
  {
    steps == [] || (Enabled(c, w, steps[0]) && Sound(c, w, steps[0]) &&
      (StepKeepsIff(c, w, steps[0]); CanRun(c, Next(c, w, steps[0]), steps[1..])))
  }

  /** Every run of sound steps keeps the invariant. */
  ghost function Run(c: Config, w: World, steps: seq<Step>): (u: World)
    requires ValidConfig(c) && Inv(c, w) && CanRun(c, w, steps)
    ensures Inv(c, u)
    decreases |steps|
  {
    if steps == [] then w
    else
      StepKeepsIff(c, w, steps[0]);
      Run(c, Next(c, w, steps[0]), steps[1..])
  }

  /** With one vtable for each class, an unhook is sound exactly when nobody or this very hooker tracks the object. */
  lemma SoundUnhookIff(c: Config, w: World, h: HookerId, o: Obj)
    requires ValidConfig(c) && Inv(c, w) && OneVtablePerClass(c) && Enabled(c, w, UnhookStep(h, o))
    ensures Sound(c, w, UnhookStep(h, o)) <==>
      TrackKeyOf(c, w, h, o) !in w.tracked || w.tracked[TrackKeyOf(c, w, h, o)].hooker == h
  {
    if TrackKeyOf(c, w, h, o) in w.tracked { NeverStranded(c, w, TrackKeyOf(c, w, h, o)); }
  }

  // ---------- what the invariant says about vtables ----------

  ghost predicate HasTracked(w: World, v: Addr) {
    exists k: TrackKey {:trigger w.tracked[k]} :: k in w.tracked && w.tracked[k].original == v
  }

  /** The entry of `v` owns the NULL key of its class and depth, and another vtable of the class is hooked. */
  ghost predicate KeptForOthers(c: Config, w: World, v: Addr) {
    && HookKey(c, v).Some?
    && var vk := HookKey(c, v).value;
    && var g := ClassKey(vk.class_, vk.depth);
    && g in w.anyVt && w.anyVt[g] in w.vts && w.vts[w.anyVt[g]].vtable == v
    && exists x: VtKey {:trigger x in w.hooked} ::
      x in w.hooked && x.class_ == vk.class_ && x.depth == vk.depth && x != vk
  }

  /** However many vtables a class has, a vtable holds hooks exactly while an object of it is tracked or its entry
      owns the NULL key on behalf of another hooked vtable. */
  lemma HookedIff(c: Config, w: World, v: Addr)
    requires ValidConfig(c) && Inv(c, w)
    ensures IsHooked(c, w, v) <==> HasTracked(w, v) || KeptForOthers(c, w, v)
    ensures v in c.native ==> v in w.vtables && (w.vtables[v] == c.native[v] <==>
      !HasTracked(w, v) && !KeptForOthers(c, w, v))
  {
    if IsHooked(c, w, v) {
      HookedHasReason(c, w, v);
    }
    forall k: TrackKey {:trigger w.tracked[k]} | k in w.tracked && w.tracked[k].original == v
      ensures IsHooked(c, w, v) { TrackedIsHooked(c, w, k); }
    if KeptForOthers(c, w, v) {
      var vk := HookKey(c, v).value;
      var g := ClassKey(vk.class_, vk.depth);
      assert AnyOk(w, g) && EntryOk(c, w, w.anyVt[g]);
    }
    if v in c.native {
      assert SlotsOk(c, w, v);
      if IsHooked(c, w, v) { PatchedDiffers(c, v); }
    }
  }

  lemma HookedHasReason(c: Config, w: World, v: Addr)
    requires Inv(c, w) && IsHooked(c, w, v)
    ensures HasTracked(w, v) || KeptForOthers(c, w, v)
  {
    var vk := HookKey(c, v).value;
    assert HookedOk(w, vk);
    var id := w.hooked[vk];
    assert EntryOk(c, w, id);
    var g := GroupOf(w.vts[id]);
    if Users(w, id) != {} {
      var k :| k in Users(w, id);
      assert TrackedOk(c, w, k);
      assert w.tracked[k].original == v;
    } else {
      assert Owns(w, id, g) && Others(w, id, g) != {};
      var x :| x in Others(w, id, g);
      assert x in w.hooked && x != vk;
    }
  }

  lemma PatchedDiffers(c: Config, v: Addr)
    requires ValidConfig(c) && v in c.native && HookKey(c, v).Some?
    ensures Patched(c.native[v], c.specs[Select(c, c.home[v]).value].slots) != c.native[v]
  {
    var slots := c.specs[Select(c, c.home[v]).value].slots;
    HookForListed(slots, 0);
    var i := slots[0].index - 1;
    assert Patched(c.native[v], slots)[i] == slots[0].hooking != c.native[v][i];
  }

  /** With one vtable for each class, a vtable holds hooks exactly while an object of it is tracked. */
  lemma HookedIffTracked(c: Config, w: World, v: Addr)
    requires ValidConfig(c) && OneVtablePerClass(c) && Inv(c, w)
    ensures IsHooked(c, w, v) <==> HasTracked(w, v)
  {
    HookedIff(c, w, v);
    if IsHooked(c, w, v) {
      var vk := HookKey(c, v).value;
      forall x: VtKey {:trigger x in w.hooked} | x in w.hooked && x.class_ == vk.class_ && x.depth == vk.depth
        ensures x == vk {
        assert HookedOk(w, x) && EntryOk(c, w, w.hooked[x]);
        assert c.home[x.vtable] == c.home[v];
      }
    }
  }

  /** After every run a vtable is what it was before the first hook exactly when no object of it is tracked and it is
      not
      kept for another vtable of its class; with one vtable for each class, exactly when no object of it is tracked. */
  lemma RestoredWhenLastLeaves(c: Config, w: World, steps: seq<Step>, v: Addr)
    requires ValidConfig(c) && Inv(c, w) && CanRun(c, w, steps) && v in c.native
    ensures var u := Run(c, w, steps);
      && v in u.vtables
      && (u.vtables[v] == c.native[v] <==> !HasTracked(u, v) && !KeptForOthers(c, u, v))
      && (OneVtablePerClass(c) ==> (u.vtables[v] == c.native[v] <==> !HasTracked(u, v)))
  {
    var u := Run(c, w, steps);
    HookedIff(c, u, v);
    if OneVtablePerClass(c) { HookedIffTracked(c, u, v); }
  }

  /** When nothing is tracked, no entry is left over and every counter is zero. */
  lemma NothingTracked(c: Config, w: World)
    requires ValidConfig(c) && OneVtablePerClass(c) && Inv(c, w) && w.tracked == map[]
    ensures w.hooked == map[] && w.anyVt == map[] && w.vts == map[]
    ensures forall h: HookerId {:trigger w.hookers[h]} :: h in w.hookers ==> w.hookers[h].counter == 0
  {
    forall id: Id | id in w.vts ensures false {
      assert EntryOk(c, w, id);
      HookedIffTracked(c, w, w.vts[id].vtable);
    }
    forall k: VtKey | k in w.hooked ensures w.hooked[k] in w.vts { assert HookedOk(w, k); }
    forall g: ClassKey | g in w.anyVt ensures w.anyVt[g] in w.vts { assert AnyOk(w, g); }
    forall h: HookerId {:trigger w.hookers[h]} | h in w.hookers
      ensures w.hookers[h].counter == 0 { assert HookerOk(c, w, h); assert Mine(w, h) == {}; }
  }

  /** Two hookers never hook the same vtable, and the slots of a hooked vtable are those of its hooker. */
  lemma OneHookerPerVtable(c: Config, w: World, j: VtKey, k: VtKey)
    requires Inv(c, w) && j in w.hooked && k in w.hooked && j.vtable == k.vtable
    ensures j == k
  {
    assert HookedOk(w, j) && HookedOk(w, k) && EntryOk(c, w, w.hooked[j]) && EntryOk(c, w, w.hooked[k]);
  }

  /** Two vtables of one class, one slot each, one hooker. */
  function TwoVtables(): Config {
    Config(map[1 := [10], 2 := [10]], map[1 := Root(1), 2 := Root(1)],
      map[0 := HookerSpec([SlotHook(1, 99)], 0, Root(1))], map[(0, Root(1)) := 0])
  }

  function TwoObjects(): World {
    World(map[1 := Object(Root(1), 1), 2 := Object(Root(1), 2)], map[1 := [10], 2 := [10]], map[], map[], map[], map[],
      map[0 := Hooker(None, 0)])
  }

  function InfoOfTwo(): seq<FnInfo> {
    [FnInfo(1, 10, 99)]
  }

  lemma SlotsOfTwo()
    ensures Patched([10], [SlotHook(1, 99)]) == [99] && Recorded([10], [SlotHook(1, 99)]) == InfoOfTwo() &&
      Restored([99], InfoOfTwo()) == [10]
  {
    assert HookFor([SlotHook(1, 99)], 0) == Some(99);
    assert OriginalFor(InfoOfTwo(), 0) == Some(10);
  }

  lemma TwoVtablesStart()
    ensures ValidConfig(TwoVtables()) && !OneVtablePerClass(TwoVtables()) && Inv(TwoVtables(), TwoObjects()) &&
      Select(TwoVtables(), Root(1)) == Some(0)
  {
    TwoVtablesConfig();
    assert Mine(TwoObjects(), 0) == {};
  }

  lemma TwoVtablesConfig()
    ensures ValidConfig(TwoVtables()) && !OneVtablePerClass(TwoVtables()) && Select(TwoVtables(), Root(1)) == Some(0)
  {
    var c := TwoVtables();
    assert c.home[1] == c.home[2];
  }

  /** Hooking the first object of a vtable installs the hook. */
  lemma FreshHookInstalls(c: Config, w: World, h: HookerId, o: Obj, id: Id)
    requires ValidConfig(c) && Inv(c, w) && EngineHooks(c, w, h, o) && w.objects[o].vptr in c.home && id !in w.vts
    requires TrackKeyOf(c, w, h, o) !in w.tracked && VtKeyOf(c, w, h, o) !in w.hooked
    ensures w.objects[o].vptr in NoteClass(c, w, h, o).vtables && Inv(c, NoteClass(c, w, h, o)) &&
      EngineHooks(c, NoteClass(c, w, h, o), h, o)
    ensures InstallOk(c, NoteClass(c, w, h, o), h, TrackKeyOf(c, w, h, o), w.objects[o].vptr)
    ensures Hook(c, w, h, o, NoFault, id) == (Install(c, NoteClass(c, w, h, o), h, TrackKeyOf(c, w, h, o),
      w.objects[o].vptr, id), Success)
    ensures Inv(c, Hook(c, w, h, o, NoFault, id).0)
  {
    NoteClassKeeps(c, w, h, o);
    InstallDefined(c, NoteClass(c, w, h, o), h, o);
    NoDoubleHook(c, h, w.objects[o].vptr);
    HookKeeps(c, w, h, o, NoFault, id, Hook(c, w, h, o, NoFault, id).0, Hook(c, w, h, o, NoFault, id).1);
  }

  /** What installing needs to be defined. */
  ghost predicate InstallOk(c: Config, w: World, h: HookerId, k: TrackKey, v: Addr) {
    && h in w.hookers && h in c.specs && v in w.vtables
    && (forall i: nat {:trigger c.specs[h].slots[i]} :: i < |c.specs[h].slots| ==>
      1 <= c.specs[h].slots[i].index <= |w.vtables[v]|)
    && (ClassKey(k.class_, k.depth) in w.anyVt ==> w.anyVt[ClassKey(k.class_, k.depth)] in w.vts)
  }

  /** The first object is hooked: its vtable's entry owns the NULL key. */
  function FirstHooked(): World {
    var m := Root(1);
    World(TwoObjects().objects, map[1 := [99], 2 := [10]], map[TrackKey(1, m, 0) := ObjEntry(0, 1, 1, 1)],
      map[VtKey(1, m, 0) := 1],
          map[ClassKey(m, 0) := 1], map[1 := VtEntry(0, 1, m, 0, InfoOfTwo(), 1, 3)], map[0 := Hooker(Some(m), 1)])
  }

  /** The second object is hooked: its vtable has an entry of its own. */
  function BothHooked(): World {
    var m := Root(1);
    World(TwoObjects().objects, map[1 := [99], 2 := [99]],
          map[TrackKey(1, m, 0) := ObjEntry(0, 1, 1, 1), TrackKey(2, m, 0) := ObjEntry(0, 2, 2, 1)],
            map[VtKey(1, m, 0) := 1, VtKey(2, m, 0) := 2],
          map[ClassKey(m, 0) := 1], map[1 := VtEntry(0, 1, m, 0, InfoOfTwo(), 2, 3), 2 :=
            VtEntry(0, 2, m, 0, InfoOfTwo(), 1, 2)], map[0 := Hooker(Some(m), 2)])
  }

  lemma FirstHook()
    ensures ValidConfig(TwoVtables()) && Inv(TwoVtables(), TwoObjects()) &&
      EngineHooks(TwoVtables(), TwoObjects(), 0, 1)
    ensures Hook(TwoVtables(), TwoObjects(), 0, 1, NoFault, 1) == (FirstHooked(), Success) &&
      Inv(TwoVtables(), FirstHooked())
  {
    TwoVtablesStart();
    FreshHookInstalls(TwoVtables(), TwoObjects(), 0, 1, 1);
    FirstInstall();
  }

  function FirstNoted(): World {
    TwoObjects().(hookers := map[0 := Hooker(Some(Root(1)), 0)])
  }

  lemma FirstInstall()
    ensures 0 in TwoObjects().hookers && NoteClass(TwoVtables(), TwoObjects(), 0, 1) == FirstNoted()
    ensures InstallOk(TwoVtables(), FirstNoted(), 0, TrackKey(1, Root(1), 0), 1)
    ensures Install(TwoVtables(), FirstNoted(), 0, TrackKey(1, Root(1), 0), 1, 1) == FirstHooked()
  {
    SlotsOfTwo();
    assert NoteClass(TwoVtables(), TwoObjects(), 0, 1).hookers == FirstNoted().hookers;
    var u := Install(TwoVtables(), FirstNoted(), 0, TrackKey(1, Root(1), 0), 1, 1);
    assert u.vtables == FirstHooked().vtables && u.vts == FirstHooked().vts && u.hookers == FirstHooked().hookers;
  }

  /** The second object can be hooked, as the first of its vtable. */
  lemma SecondCanBeHooked()
    ensures EngineHooks(TwoVtables(), FirstHooked(), 0, 2) && FirstHooked().objects[2].vptr in TwoVtables().home
    ensures TrackKeyOf(TwoVtables(), FirstHooked(), 0, 2) == TrackKey(2, Root(1), 0)
    ensures TrackKey(2, Root(1), 0) !in FirstHooked().tracked
    ensures VtKeyOf(TwoVtables(), FirstHooked(), 0, 2) !in FirstHooked().hooked && 2 !in FirstHooked().vts
  {
    TwoVtablesConfig();
  }

  lemma SecondHook()
    ensures ValidConfig(TwoVtables()) && Inv(TwoVtables(), FirstHooked()) &&
      EngineHooks(TwoVtables(), FirstHooked(), 0, 2)
    ensures Hook(TwoVtables(), FirstHooked(), 0, 2, NoFault, 2) == (BothHooked(), Success) &&
      Inv(TwoVtables(), BothHooked())
  {
    FirstHook();
    SecondCanBeHooked();
    SecondInstalled(TwoVtables(), FirstHooked(), BothHooked());
  }

  lemma SecondInstalled(c: Config, w: World, u: World)
    requires c == TwoVtables() && w == FirstHooked() && u == BothHooked()
    requires ValidConfig(c) && Inv(c, w) && EngineHooks(c, w, 0, 2) && w.objects[2].vptr in c.home && 2 !in w.vts
    requires TrackKeyOf(c, w, 0, 2) !in w.tracked && VtKeyOf(c, w, 0, 2) !in w.hooked
    ensures Hook(c, w, 0, 2, NoFault, 2) == (u, Success) && Inv(c, u)
  {
    FreshHookInstalls(c, w, 0, 2, 2);
    SecondInstall();
  }

  lemma SecondInstall()
    ensures 0 in FirstHooked().hookers && NoteClass(TwoVtables(), FirstHooked(), 0, 2) == FirstHooked()
    ensures InstallOk(TwoVtables(), FirstHooked(), 0, TrackKey(2, Root(1), 0), 2)
    ensures Install(TwoVtables(), FirstHooked(), 0, TrackKey(2, Root(1), 0), 2, 2) == BothHooked()
  {
    SlotsOfTwo();
    var u := Install(TwoVtables(), FirstHooked(), 0, TrackKey(2, Root(1), 0), 2, 2);
    assert u.tracked == BothHooked().tracked && u.hooked == BothHooked().hooked;
    assert u.vtables == BothHooked().vtables && u.vts == BothHooked().vts && u.hookers == BothHooked().hookers;
  }

  /**
   With two vtables for one class the owner of the NULL key can be stranded: hook an object of each, unhook the first,
   then the second. Nothing is tracked any more, and the vtable that was hooked first still holds its hook.
   */
  lemma TwoVtablesStrandOne()
    ensures Inv(TwoVtables(), BothHooked())
    ensures var w := Unhook(TwoVtables(), BothHooked(), 0, 1);
      && Inv(TwoVtables(), w) && 0 in w.hookers && 2 in w.objects
      && TrackKey(2, Root(1), 0) in w.tracked && w.tracked[TrackKey(2, Root(1), 0)].vtEntry in w.vts &&
        StrandsOwner(w, TrackKey(2, Root(1), 0))
      && var u := Unhook(TwoVtables(), w, 0, 2);
      && u.tracked == map[] && 1 in u.vtables && u.vtables[1] == [99] && TwoVtables().native[1] == [10]
  {
    TwoVtablesStart();
    SecondHook();
    SlotsOfTwo();
    var c := TwoVtables();
    UnhookKeepsIff(c, BothHooked(), 0, 1);
  }
}
