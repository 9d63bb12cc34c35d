/**
 Runs of the engine, which hooks objects both ways, again when their class is published; what every event keeps, or
 exactly when it does not, and what calls of a hooked object pass through afterwards.
 */
module ObjectHookRuns {
  import opened HookModel
  import opened HookProofs
  import opened HookRuns
  import opened ObjectHooks
  import opened Options

  // ---------- vtable hooks beside object hooks ----------

  /** What a vtable hook or unhook of another object leaves alone. */
  ghost predicate Beside(c: Config, s: State, u: World) {
    && u.objects == s.w.objects
    && (forall v: Addr {:trigger u.vtables[v]} {:trigger v in u.vtables} :: v in s.w.vtables && v !in c.native ==>
      v in u.vtables && u.vtables[v] == s.w.vtables[v])
    && (forall k: TrackKey {:trigger k in u.tracked} :: k in s.w.tracked && k.obj in s.replaced ==>
      k in u.tracked && u.tracked[k] == s.w.tracked[k])
  }

  lemma BesideKeeps(c: Config, p: ObjectConfig, s: State, u: World)
    requires ObjectsInv(c, p, s) && Inv(c, u) && Beside(c, s, u)
    ensures ObjectsInv(c, p, s.(w := u))
  {
    var t := s.(w := u);
    forall n: MetaClass {:trigger CopyOk(c, p, t, n)} | n in t.per ensures CopyOk(c, p, t, n) {
      assert CopyOk(c, p, s, n) && Hooked(t, n) == Hooked(s, n);
    }
    forall x: Obj {:trigger ReplacedOk(c, t, x)} | x in t.replaced
      ensures ReplacedOk(c, t, x) { assert ReplacedOk(c, s, x); }
    forall x: Obj, n: MetaClass {:trigger PlainOk(t, x, n)} ensures PlainOk(t, x, n) { assert PlainOk(s, x, n); }
    forall n: MetaClass, l: MetaClass {:trigger CopiesApart(t, n, l)}
      ensures CopiesApart(t, n, l) { assert CopiesApart(s, n, l); }
  }

  /** Whatever the hook does: objects stay, and no vtable comes, goes or changes its length. */
  lemma HookShapes(c: Config, w: World, h: HookerId, o: Obj, fault: Fault, id: Id)
    requires ValidConfig(c) && Inv(c, w) && EngineHooks(c, w, h, o)
    ensures var u := Hook(c, w, h, o, fault, id).0;
      && u.objects == w.objects && u.hookers.Keys == w.hookers.Keys && u.vts.Keys <= w.vts.Keys + {id}
      && u.vtables.Keys == w.vtables.Keys
      && forall v: Addr {:trigger u.vtables[v]} :: v in w.vtables ==> |u.vtables[v]| == |w.vtables[v]|
  {
    NoteClassKeeps(c, w, h, o);
    NotedShapes(c, NoteClass(c, w, h, o), h, o, fault, id);
  }

  lemma NotedShapes(c: Config, w: World, h: HookerId, o: Obj, fault: Fault, id: Id)
    requires ValidConfig(c) && Inv(c, w) && EngineHooks(c, w, h, o)
    ensures var u := HookNoted(c, w, h, o, fault, id).0;
      && u.objects == w.objects && u.hookers.Keys == w.hookers.Keys && u.vts.Keys <= w.vts.Keys + {id}
      && u.vtables.Keys == w.vtables.Keys
      && forall v: Addr {:trigger u.vtables[v]} :: v in w.vtables ==> |u.vtables[v]| == |w.vtables[v]|
  {
    var vk := VtKeyOf(c, w, h, o);
    if vk in w.hooked { assert HookedOk(w, vk); } else { OwnerDefined(c, w, h, o); }
  }

  /** A hook that keeps the books leaves every private vtable and every other tracked object alone. */
  lemma HookBeside(c: Config, s: State, h: HookerId, o: Obj, fault: Fault, id: Id)
    requires ValidConfig(c) && Inv(c, s.w) && EngineHooks(c, s.w, h, o) && id !in s.w.vts
    requires KeepsBooks(c, s.w, h, o, fault)
    ensures var u := Hook(c, s.w, h, o, fault, id).0;
      && Beside(c, s, u) && Inv(c, u)
      && u.tracked.Keys == s.w.tracked.Keys +
        (if Refused(c, s.w, h, o, fault) then {} else {TrackKeyOf(c, s.w, h, o)})
      && (fault != NoFault || s.w.objects[o].vptr !in c.home ==> u == s.w.(hookers := u.hookers))
  {
    var (u, status) := Hook(c, s.w, h, o, fault, id);
    HookKeeps(c, s.w, h, o, fault, id, u, status);
    NoteClassKeeps(c, s.w, h, o);
    NotedLeaves(c, s.(w := NoteClass(c, s.w, h, o)), h, o, fault, id);
  }

  lemma NotedLeaves(c: Config, s: State, h: HookerId, o: Obj, fault: Fault, id: Id)
    requires ValidConfig(c) && Inv(c, s.w) && EngineHooks(c, s.w, h, o) && KeepsBooks(c, s.w, h, o, fault)
    ensures var u := HookNoted(c, s.w, h, o, fault, id).0;
      Beside(c, s, u) && (fault != NoFault || s.w.objects[o].vptr !in c.home ==> u == s.w)
  {
    HookedAtHome(c, s.w, VtKeyOf(c, s.w, h, o));
    if VtKeyOf(c, s.w, h, o) !in s.w.hooked && s.w.objects[o].vptr in c.home { InstallDefined(c, s.w, h, o); }
  }

  lemma UnhookBeside(c: Config, s: State, h: HookerId, o: Obj)
    requires ValidConfig(c) && Inv(c, s.w) && h in s.w.hookers && h in c.specs && o in s.w.objects && o !in s.replaced
    ensures Beside(c, s, Unhook(c, s.w, h, o))
    ensures forall v: Addr {:trigger v in Unhook(c, s.w, h, o).vtables} :: v in Unhook(c, s.w, h, o).vtables ==>
      v in s.w.vtables
  {
    var k := TrackKeyOf(c, s.w, h, o);
    if k in s.w.tracked {
      UnhookDefined(c, s.w, k);
      assert EntryOk(c, s.w, s.w.tracked[k].vtEntry);
    }
  }

  // ---------- runs ----------

  /** The engine hooks an object both ways, and goes on when the vtable hook fails; an object can be hooked again, which
      happens when its class is published; objects leave their object hook first; objects come and go. */
  datatype Event =
    | EngineEvent(o: Obj, id: Id, vtableFault: Fault, fault: Fault, at: Addr)
    | LeaveObjectHook(o: Obj)
    | LeaveVtableHook(h: HookerId, o: Obj)
    | Appear(o: Obj, object: Object)
    | Disappear(o: Obj)

  ghost predicate Possible(c: Config, p: ObjectConfig, s: State, e: Event) {
    match e
    case EngineEvent(o, id, vtableFault, _, at) =>
      && o in s.w.objects && (o in s.replaced || s.w.objects[o].vptr in c.home)
      && (Select(c, s.w.objects[o].class_).Some? ==> Enabled(c, s.w, HookStep(o, vtableFault, id)))
      && (s.w.objects[o].class_ in p ==> s.w.objects[o].class_ in s.per)
      && at !in s.w.vtables && at !in c.native
    case LeaveObjectHook(o) => o in s.w.objects && s.w.objects[o].class_ in s.per
    case LeaveVtableHook(h, o) => o !in s.replaced && Enabled(c, s.w, UnhookStep(h, o))
    case Appear(o, ob) => Enabled(c, s.w, CreateStep(o, ob)) && o !in s.replaced &&
      forall m: MetaClass {:trigger s.per[m]} :: m in s.per ==> s.per[m].copy != Some(ob.vptr)
    case Disappear(o) => Enabled(c, s.w, DestroyStep(o)) && o !in s.replaced
  }

  /** What makes an event leave the books right: the vtable hook does not take a private copy for a new vtable, and an
      object leaves its vtable hook through the hooker that tracks it. */
  ghost predicate SoundEvent(c: Config, p: ObjectConfig, s: State, e: Event)
    requires Possible(c, p, s, e)
  {
    match e
    case EngineEvent(o, id, vtableFault, _, _) =>
      Select(c, s.w.objects[o].class_).Some? ==> Sound(c, s.w, HookStep(o, vtableFault, id))
    case LeaveVtableHook(h, o) => Sound(c, s.w, UnhookStep(h, o))
    case _ => true
  }

  /** The vtable hook of the engine, when the class has one; its failure is ignored. */
  function HookVtableFirst(c: Config, s: State, o: Obj, fault: Fault, id: Id): State
    requires ValidConfig(c) && Inv(c, s.w) && o in s.w.objects
    requires Select(c, s.w.objects[o].class_).Some? ==> EngineHooks(c, s.w, Select(c, s.w.objects[o].class_).value, o)
  {
    if Select(c, s.w.objects[o].class_).Some? then s.(w :=
      Hook(c, s.w, Select(c, s.w.objects[o].class_).value, o, fault, id).0) else s
  }

  lemma HookableNow(c: Config, p: ObjectConfig, s: State, e: Event)
    requires ObjectsInv(c, p, s) && ValidObjects(c, p) && e.EngineEvent? && Possible(c, p, s, e)
    ensures s.w.objects[e.o].class_ in p ==> e.o in s.replaced || ReadyFor(c, p, s, e.o)
    ensures e.o in s.replaced ==> s.w.objects[e.o].class_ in p
  {
    assert ObjectOk(c, s.w, e.o);
    if e.o in s.replaced { assert ReplacedOk(c, s, e.o) && CopyOk(c, p, s, s.w.objects[e.o].class_); }
  }

  /** After the vtable hook, whatever it did, the object hook can go on. */
  lemma VtableFirstShapes(c: Config, p: ObjectConfig, s: State, e: Event)
    requires ObjectsInv(c, p, s) && ValidObjects(c, p) && e.EngineEvent? && Possible(c, p, s, e)
    ensures var t, m, v := HookVtableFirst(c, s, e.o, e.vtableFault, e.id), s.w.objects[e.o].class_,
      s.w.objects[e.o].vptr;
      && t.w.objects == s.w.objects && t.per == s.per && t.replaced == s.replaced && t.w.hookers.Keys ==
        s.w.hookers.Keys && t.w.vtables.Keys == s.w.vtables.Keys && t.w.vts.Keys <= s.w.vts.Keys + {e.id}
      && (m in p ==> m in t.per && v in t.w.vtables && forall i: nat {:trigger p[m][i]} :: i < |p[m]| ==>
            1 <= p[m][i].index <= |t.w.vtables[v]|)
  {
    HookableNow(c, p, s, e);
    var m := s.w.objects[e.o].class_;
    if Select(c, m).Some? { HookShapes(c, s.w, Select(c, m).value, e.o, e.vtableFault, e.id); }
    if m in p { SlotsInside(c, p, s, e.o); }
  }

  lemma VtableFirstKeeps(c: Config, p: ObjectConfig, s: State, e: Event)
    requires ObjectsInv(c, p, s) && ValidObjects(c, p) && OneVtablePerClass(c) && e.EngineEvent? && Possible(c, p, s, e)
    requires SoundEvent(c, p, s, e)
    ensures var t := HookVtableFirst(c, s, e.o, e.vtableFault, e.id);
      && ObjectsInv(c, p, t) && Beside(c, s, t.w)
      && (s.w.objects[e.o].class_ in p ==> e.o in t.replaced || ReadyFor(c, p, t, e.o))
  {
    var t, m := HookVtableFirst(c, s, e.o, e.vtableFault, e.id), s.w.objects[e.o].class_;
    HookableNow(c, p, s, e);
    VtableFirstShapes(c, p, s, e);
    if Select(c, m).Some? {
      HookBeside(c, s, Select(c, m).value, e.o, e.vtableFault, e.id);
      BesideKeeps(c, p, s, t.w);
    }
  }

  ghost function After(c: Config, p: ObjectConfig, s: State, e: Event): State
    requires ObjectsInv(c, p, s) && ValidObjects(c, p) && Possible(c, p, s, e)
  {
    match e
    case EngineEvent(o, id, vtableFault, fault, at) =>
      VtableFirstShapes(c, p, s, e);
      var t := HookVtableFirst(c, s, o, vtableFault, id);
      if s.w.objects[o].class_ in p then HookObject(c, p, t, o, fault, at).0 else t
    case LeaveObjectHook(o) => UnhookObject(s, o)
    case LeaveVtableHook(h, o) => s.(w := Next(c, s.w, UnhookStep(h, o)))
    case Appear(o, ob) => s.(w := Next(c, s.w, CreateStep(o, ob)))
    case Disappear(o) => s.(w := Next(c, s.w, DestroyStep(o)))
  }

  lemma AfterKeeps(c: Config, p: ObjectConfig, s: State, e: Event)
    requires ObjectsInv(c, p, s) && ValidObjects(c, p) && OneVtablePerClass(c) && Possible(c, p, s, e)
    requires SoundEvent(c, p, s, e)
    ensures ObjectsInv(c, p, After(c, p, s, e))
  {
    match e
    case EngineEvent(o, id, vtableFault, fault, at) =>
      VtableFirstShapes(c, p, s, e);
      VtableFirstKeeps(c, p, s, e);
      if s.w.objects[o].class_ in p { HookObjectKeeps(c, p, HookVtableFirst(c, s, o, vtableFault, id), o, fault, at); }
    case LeaveObjectHook(o) => UnhookObjectKeeps(c, p, s, o);
    case LeaveVtableHook(h, o) =>
      StepKeepsIff(c, s.w, UnhookStep(h, o));
      UnhookBeside(c, s, h, o);
      BesideKeeps(c, p, s, Unhook(c, s.w, h, o));
    case Appear(o, ob) =>
      StepKeepsIff(c, s.w, CreateStep(o, ob));
      ComesOrGoes(c, p, s, Next(c, s.w, CreateStep(o, ob)), o);
    case Disappear(o) =>
      StepKeepsIff(c, s.w, DestroyStep(o));
      ComesOrGoes(c, p, s, Next(c, s.w, DestroyStep(o)), o);
  }

  /** An engine event that is not sound hooks the private copy of an object a second time. */
  lemma UnsoundEngine(c: Config, p: ObjectConfig, s: State, e: Event)
    requires ObjectsInv(c, p, s) && ValidObjects(c, p) && e.EngineEvent? && Possible(c, p, s, e)
    requires !SoundEvent(c, p, s, e)
    ensures e.o in s.replaced && s.w.objects[e.o].vptr !in c.native && Select(c, s.w.objects[e.o].class_).Some?
    ensures var h := Select(c, s.w.objects[e.o].class_).value;
      After(c, p, s, e) == s.(w := Hook(c, s.w, h, e.o, e.vtableFault, e.id).0) && !Inv(c, After(c, p, s, e).w)
  {
    HookableNow(c, p, s, e);
    VtableFirstShapes(c, p, s, e);
    assert ReplacedOk(c, s, e.o) && CopyOk(c, p, s, s.w.objects[e.o].class_);
    HookKeepsIff(c, s.w, Select(c, s.w.objects[e.o].class_).value, e.o, e.vtableFault, e.id);
  }

  /** An event keeps everything, whatever calls fail in it, exactly when it is sound. */
  lemma AfterKeepsIff(c: Config, p: ObjectConfig, s: State, e: Event)
    requires ObjectsInv(c, p, s) && ValidObjects(c, p) && OneVtablePerClass(c) && Possible(c, p, s, e)
    ensures ObjectsInv(c, p, After(c, p, s, e)) <==> SoundEvent(c, p, s, e)
  {
    if SoundEvent(c, p, s, e) {
      AfterKeeps(c, p, s, e);
    } else if e.EngineEvent? {
      UnsoundEngine(c, p, s, e);
    } else {
      StepKeepsIff(c, s.w, UnhookStep(e.h, e.o));
    }
  }

  /** When an engine event is sound: the object is not object-hooked, or its class has no vtable hooker, or it is
      tracked
      already, or a call of the vtable hook fails, or the double hook test fires on the copy, which it does when the
      copy
      was made from the hooked vtable and no object hook took the tested slot. */
  lemma SoundEngineIff(c: Config, p: ObjectConfig, s: State, e: Event)
    requires ObjectsInv(c, p, s) && ValidObjects(c, p) && e.EngineEvent? && Possible(c, p, s, e)
    ensures var m := s.w.objects[e.o].class_;
      && (Select(c, m).Some? ==>
            && Select(c, m).value in c.specs && c.specs[Select(c, m).value].slots != []
            && c.specs[Select(c, m).value].slots[0].index >= 1)
      && (SoundEvent(c, p, s, e) <==>
            || e.o !in s.replaced
            || Select(c, m) == None
            || TrackKeyOf(c, s.w, Select(c, m).value, e.o) in s.w.tracked
            || e.vtableFault != NoFault
            || (m in s.per && s.per[m].patched &&
                ObjectHook(p, m, c.specs[Select(c, m).value].slots[0].index - 1) == None))
  {
    var m := s.w.objects[e.o].class_;
    if e.o in s.replaced && Select(c, m).Some? {
      assert ReplacedOk(c, s, e.o) && CopyOk(c, p, s, m);
      DoubleHookOnCopy(c, p, s, e.o, Select(c, m).value);
    }
  }

  /**
   What an engine event that is not sound leaves: the copy is patched once more and has an entry of its own, and the
   object is tracked as one that used it. When the object was the only one hooked in its class, leaving its object hook
   takes the copy away; the entry then names a vtable that no longer exists, which unhooking it would have to restore.
   */
  lemma UnsoundLeaves(c: Config, p: ObjectConfig, s: State, e: Event)
    requires ObjectsInv(c, p, s) && ValidObjects(c, p) && e.EngineEvent? && Possible(c, p, s, e)
    requires !SoundEvent(c, p, s, e)
    ensures var m, v, u := s.w.objects[e.o].class_, s.w.objects[e.o].vptr, After(c, p, s, e);
      && Select(c, m).Some? && Select(c, m).value in c.specs && v in s.w.vtables
      && var h := Select(c, m).value;
      var k := TrackKeyOf(c, s.w, h, e.o);
      && u.w.objects == s.w.objects && u.per == s.per && u.replaced == s.replaced
      && k in u.w.tracked && u.w.tracked[k].vtEntry == e.id && u.w.tracked[k].original == v
      && e.id in u.w.vts && u.w.vts[e.id].vtable == v && u.w.vts[e.id].refs == 1
      && u.w.vtables == s.w.vtables[v := Patched(s.w.vtables[v], c.specs[h].slots)]
      && u.w.vtables[v] != s.w.vtables[v]
    ensures var m, v, u := s.w.objects[e.o].class_, s.w.objects[e.o].vptr, After(c, p, s, e);
      Hooked(s, m) == {e.o} ==>
        && u.w.objects[e.o].class_ in u.per
        && var gone := UnhookObject(u, e.o);
        var h := Select(c, m).value;
        && v !in gone.w.vtables && e.id in gone.w.vts && gone.w.vts[e.id].vtable == v && gone.w.vts[e.id].refs == 1
        && TrackKeyOf(c, s.w, h, e.o) in gone.w.tracked && gone.w.tracked[TrackKeyOf(c, s.w, h, e.o)].vtEntry == e.id
        && !UninstallOk(gone.w, h, TrackKeyOf(c, s.w, h, e.o))
  {
    UnsoundEngine(c, p, s, e);
    var m, v := s.w.objects[e.o].class_, s.w.objects[e.o].vptr;
    var h := Select(c, m).value;
    HookBreaks(c, s.w, h, e.o, e.vtableFault, e.id);
    assert ReplacedOk(c, s, e.o) && CopyOk(c, p, s, m);
    HookForListed(c.specs[h].slots, 0);
    assert Patched(s.w.vtables[v], c.specs[h].slots)[c.specs[h].slots[0].index - 1] == c.specs[h].slots[0].hooking;
  }

  lemma ComesOrGoes(c: Config, p: ObjectConfig, s: State, u: World, o: Obj)
    requires ObjectsInv(c, p, s) && Inv(c, u) && u == s.w.(objects := u.objects) && o !in s.replaced
    requires forall x: Obj {:trigger u.objects[x]} {:trigger x in u.objects} :: x != o ==>
      (x in u.objects <==> x in s.w.objects) && (x in u.objects ==> u.objects[x] == s.w.objects[x])
    requires o in u.objects ==> forall m: MetaClass {:trigger s.per[m]} :: m in s.per ==>
      s.per[m].copy != Some(u.objects[o].vptr)
    ensures ObjectsInv(c, p, s.(w := u))
  {
    var t := s.(w := u);
    forall n: MetaClass {:trigger CopyOk(c, p, t, n)} | n in t.per ensures CopyOk(c, p, t, n) {
      assert CopyOk(c, p, s, n) && Hooked(t, n) == Hooked(s, n);
    }
    forall x: Obj {:trigger ReplacedOk(c, t, x)} | x in t.replaced
      ensures ReplacedOk(c, t, x) { assert ReplacedOk(c, s, x); }
    forall x: Obj, n: MetaClass {:trigger PlainOk(t, x, n)} ensures PlainOk(t, x, n) { assert PlainOk(s, x, n); }
    forall n: MetaClass, l: MetaClass {:trigger CopiesApart(t, n, l)}
      ensures CopiesApart(t, n, l) { assert CopiesApart(s, n, l); }
  }

  ghost predicate CanHappen(c: Config, p: ObjectConfig, s: State, events: seq<Event>)
    requires ObjectsInv(c, p, s) && ValidObjects(c, p) && OneVtablePerClass(c)
    decreases |events|
  {
    events == [] || (Possible(c, p, s, events[0]) && SoundEvent(c, p, s, events[0]) &&
      (AfterKeeps(c, p, s, events[0]); CanHappen(c, p, After(c, p, s, events[0]), events[1..])))
  }

  /** Every run of sound events keeps the invariant. */
  ghost function AfterAll(c: Config, p: ObjectConfig, s: State, events: seq<Event>): (u: State)
    requires ObjectsInv(c, p, s) && ValidObjects(c, p) && OneVtablePerClass(c) && CanHappen(c, p, s, events)
    ensures ObjectsInv(c, p, u)
    decreases |events|
  {
    if events == [] then s
    else
      AfterKeeps(c, p, s, events[0]);
      AfterAll(c, p, After(c, p, s, events[0]), events[1..])
  }

  /**
   Over every run: an object that is hooked after it and leaves its object hook has a vtable of its class again, the
   only one; and a patched copy exists whenever an object is hooked.
   */
  lemma LeavesWithOwnVtable(c: Config, p: ObjectConfig, s: State, events: seq<Event>, o: Obj)
    requires ObjectsInv(c, p, s) && ValidObjects(c, p) && OneVtablePerClass(c) && CanHappen(c, p, s, events)
    requires o in AfterAll(c, p, s, events).replaced
    ensures var u := AfterAll(c, p, s, events);
      o in u.w.objects && var m := u.w.objects[o].class_;
      && m in u.per && u.per[m].copy == Some(u.w.objects[o].vptr) && u.w.objects[o].vptr in u.w.vtables
      && var v := UnhookObject(u, o).w.objects[o].vptr;
      && v in c.home && c.home[v] == m && (forall x: Addr {:trigger c.home[x]} :: x in c.home && c.home[x] == m ==>
        x == v)
  {
    var u := AfterAll(c, p, s, events);
    assert ReplacedOk(c, u, o) && ObjectOk(c, u.w, o);
    UnhookObjectKeeps(c, p, u, o);
  }

  // ---------- what an object hook changes ----------

  /** Only the object's pointer, its class's hooker and private vtables can change; a new copy knows whether the vtable
      was hooked. */
  ghost predicate HookEffect(c: Config, t: State, u: State, o: Obj) {
    && o in t.w.objects && o in u.w.objects && u.w.objects ==
      t.w.objects[o := t.w.objects[o].(vptr := u.w.objects[o].vptr)]
    && u.w.tracked == t.w.tracked && u.w.hooked == t.w.hooked && u.w.vts == t.w.vts && u.w.hookers == t.w.hookers
    && u.replaced.Keys <= t.replaced.Keys + {o}
    && var m, v := t.w.objects[o].class_, t.w.objects[o].vptr;
    && m in t.per && m in u.per && u.per == t.per[m := u.per[m]]
    && (t.per[m].copy.Some? ==> u.per[m] == t.per[m].(counter := u.per[m].counter))
    && (t.per[m].copy == None && u.per[m].copy.Some? ==>
      u.per[m].original == Some(v) && (u.per[m].patched <==> IsHooked(c, t.w, v)))
  }

  lemma HookObjectEffect(c: Config, p: ObjectConfig, t: State, o: Obj, fault: Fault, at: Addr)
    requires o in t.w.objects && t.w.objects[o].vptr in t.w.vtables
    requires var m := t.w.objects[o].class_;
      m in t.per && m in p && forall i: nat {:trigger p[m][i]} :: i < |p[m]| ==>
        1 <= p[m][i].index <= |t.w.vtables[t.w.objects[o].vptr]|
    ensures HookEffect(c, t, HookObject(c, p, t, o, fault, at).0, o)
  {
    var m, v := t.w.objects[o].class_, t.w.objects[o].vptr;
    NoEffect(c, t, o);
    if t.per[m].copy == None && fault != AllocationFails {
      CopyEffect(c, p, t, o, at);
      ReplaceEffect(c, t, MakeCopy(c, p, t, m, v, at), o);
    } else if t.per[m].copy.Some? {
      ReplaceEffect(c, t, t, o);
    }
  }

  lemma SameEntry<K, V>(m: map<K, V>, k: K)
    requires k in m
    ensures m[k := m[k]] == m
  {
  }

  lemma NoEffect(c: Config, t: State, o: Obj)
    requires o in t.w.objects && t.w.objects[o].class_ in t.per
    ensures HookEffect(c, t, t, o)
  {
    SameEntry(t.w.objects, o);
    SameEntry(t.per, t.w.objects[o].class_);
  }

  lemma CopyEffect(c: Config, p: ObjectConfig, t: State, o: Obj, at: Addr)
    requires o in t.w.objects && t.w.objects[o].vptr in t.w.vtables
    requires var m := t.w.objects[o].class_;
      m in t.per && m in p && t.per[m].copy == None && forall i: nat {:trigger p[m][i]} :: i < |p[m]| ==>
        1 <= p[m][i].index <= |t.w.vtables[t.w.objects[o].vptr]|
    ensures HookEffect(c, t, MakeCopy(c, p, t, t.w.objects[o].class_, t.w.objects[o].vptr, at), o)
  {
    SameEntry(t.w.objects, o);
  }

  lemma ReplaceEffect(c: Config, t: State, u: State, o: Obj)
    requires HookEffect(c, t, u, o) && u.w.objects == t.w.objects && u.replaced == t.replaced &&
      u.per[u.w.objects[o].class_].copy.Some?
    ensures HookEffect(c, t, Replace(u, o), o)
  {
  }

  /** The objects hooked after an event: the engine adds the one it attaches, unless its class is not registered for
      object hooks or a fault strikes; one that leaves is taken out and has its own vtable again. */
  lemma EventEffect(c: Config, p: ObjectConfig, s: State, e: Event)
    requires ObjectsInv(c, p, s) && ValidObjects(c, p) && OneVtablePerClass(c) && Possible(c, p, s, e)
    ensures var u := After(c, p, s, e);
      match e
      case EngineEvent(o, _, _, fault, _) =>
        && u.w.tracked == HookVtableFirst(c, s, o, e.vtableFault, e.id).w.tracked
        && u.replaced.Keys == s.replaced.Keys +
          (if s.w.objects[o].class_ in p && !FaultStrikes(s, o, fault) then {o} else {})
      case LeaveObjectHook(o) =>
        && o in u.w.objects && u.replaced == s.replaced - {o} && u.w.tracked == s.w.tracked
        && u.w.objects[o].vptr == if o in s.replaced then s.replaced[o] else s.w.objects[o].vptr
      case LeaveVtableHook(h, o) =>
        u.replaced == s.replaced && u.w.tracked == s.w.tracked - {TrackKeyOf(c, s.w, h, o)}
      case Appear(o, ob) => u.replaced == s.replaced && u.w.objects == s.w.objects[o := ob]
      case Disappear(o) => u.replaced == s.replaced && u.w.objects == s.w.objects - {o}
  {
    match e
    case EngineEvent(o, _, _, fault, at) => EngineReplaces(c, p, s, e);
    case LeaveObjectHook(o) => UnhookObjectKeeps(c, p, s, o);
    case LeaveVtableHook(h, o) => UnhookEffect(c, s.w, h, o);
    case _ =>
  }

  lemma EngineReplaces(c: Config, p: ObjectConfig, s: State, e: Event)
    requires ObjectsInv(c, p, s) && ValidObjects(c, p) && OneVtablePerClass(c) && e.EngineEvent? && Possible(c, p, s, e)
    ensures After(c, p, s, e).w.tracked == HookVtableFirst(c, s, e.o, e.vtableFault, e.id).w.tracked
    ensures After(c, p, s, e).replaced.Keys == s.replaced.Keys +
      (if s.w.objects[e.o].class_ in p && (e.o in s.replaced || !FaultStrikes(s, e.o, e.fault)) then {e.o} else {})
  {
    var t := EngineEffect(c, p, s, e);
    HookableNow(c, p, s, e);
    if s.w.objects[e.o].class_ in p && e.o !in s.replaced {
      VtableFirstShapes(c, p, s, e);
      VtableFirstKeeps(c, p, s, e);
      HookObjectKeeps(c, p, t, e.o, e.fault, e.at);
    }
  }

  // ---------- runs in which no vtable hook fails ----------

  /** Every copy was made from a hooked vtable, and every hooked object is tracked, when its class has a vtable
      hooker. */
  ghost predicate AllHooked(c: Config, s: State) {
    && (forall m: MetaClass {:trigger s.per[m]} :: m in s.per && s.per[m].copy.Some? && Select(c, m).Some? ==>
      s.per[m].patched)
    && (forall o: Obj {:trigger o in s.replaced} :: o in s.replaced ==> Tracks(c, s.w, o))
  }

  ghost predicate Tracks(c: Config, w: World, o: Obj) {
    o in w.objects && Select(c, w.objects[o].class_).Some? && Select(c, w.objects[o].class_).value in c.specs
    ==> TrackKeyOf(c, w, Select(c, w.objects[o].class_).value, o) in w.tracked
  }

  /** No vtable hook fails in this event. */
  predicate Succeeds(e: Event) {
    e.EngineEvent? ==> e.vtableFault == NoFault
  }

  /** When every object that is object-hooked is tracked, hooking again is sound. */
  lemma SoundWhenAllHooked(c: Config, p: ObjectConfig, s: State, e: Event)
    requires ObjectsInv(c, p, s) && AllHooked(c, s) && e.EngineEvent? && Possible(c, p, s, e)
    ensures SoundEvent(c, p, s, e)
  {
    if e.o in s.replaced { assert Tracks(c, s.w, e.o); }
  }

  /** What the engine's vtable hook leaves for the object hook. */
  lemma VtableFirstTracks(c: Config, p: ObjectConfig, s: State, e: Event)
    requires ObjectsInv(c, p, s) && ValidObjects(c, p) && OneVtablePerClass(c) && e.EngineEvent? && Possible(c, p, s, e)
    requires e.o !in s.replaced && e.vtableFault == NoFault
    ensures var t, m := HookVtableFirst(c, s, e.o, e.vtableFault, e.id), s.w.objects[e.o].class_;
      && t.w.objects == s.w.objects && e.o in t.w.objects && Tracks(c, t.w, e.o)
      && (Select(c, m).Some? ==> IsHooked(c, t.w, s.w.objects[e.o].vptr))
  {
    VtableFirstKeeps(c, p, s, e);
    VtableFirstShapes(c, p, s, e);
    var t, m := HookVtableFirst(c, s, e.o, e.vtableFault, e.id), s.w.objects[e.o].class_;
    assert ObjectOk(c, s.w, e.o);
    if Select(c, m).Some? {
      var h := Select(c, m).value;
      HookBeside(c, s, h, e.o, e.vtableFault, e.id);
      var k := TrackKeyOf(c, s.w, h, e.o);
      assert k in t.w.tracked;
      TrackedIsHooked(c, t.w, k);
      assert TrackedOk(c, t.w, k) && EntryOk(c, t.w, t.w.tracked[k].vtEntry);
      assert c.home[t.w.tracked[k].original] == c.home[s.w.objects[e.o].vptr];
    }
  }

  /** What the object hook changes after the vtable hook, whatever the vtable hook did. */
  lemma EngineEffect(c: Config, p: ObjectConfig, s: State, e: Event) returns (t: State)
    requires ObjectsInv(c, p, s) && ValidObjects(c, p) && e.EngineEvent? && Possible(c, p, s, e)
    ensures t == HookVtableFirst(c, s, e.o, e.vtableFault, e.id) && t.w.objects == s.w.objects && t.per == s.per &&
      t.replaced == s.replaced
    ensures if s.w.objects[e.o].class_ in p then HookEffect(c, t, After(c, p, s, e), e.o) else After(c, p, s, e) == t
    ensures e.o in s.replaced ==> After(c, p, s, e) == t
  {
    VtableFirstShapes(c, p, s, e);
    HookableNow(c, p, s, e);
    t := HookVtableFirst(c, s, e.o, e.vtableFault, e.id);
    if s.w.objects[e.o].class_ in p { HookObjectEffect(c, p, t, e.o, e.fault, e.at); }
  }

  lemma EngineAllHooked(c: Config, p: ObjectConfig, s: State, e: Event)
    requires ObjectsInv(c, p, s) && ValidObjects(c, p) && OneVtablePerClass(c) && e.EngineEvent? && Possible(c, p, s, e)
    requires AllHooked(c, s) && Succeeds(e)
    ensures AllHooked(c, After(c, p, s, e))
  {
    SoundWhenAllHooked(c, p, s, e);
    VtableFirstKeeps(c, p, s, e);
    var t, u := HookVtableFirst(c, s, e.o, e.vtableFault, e.id), After(c, p, s, e);
    var t' := EngineEffect(c, p, s, e);
    forall x: Obj {:trigger x in s.replaced} | x in s.replaced ensures Tracks(c, t.w, x) {
      assert Tracks(c, s.w, x) && ReplacedOk(c, s, x);
    }
    if e.o !in s.replaced && s.w.objects[e.o].class_ in p {
      VtableFirstTracks(c, p, s, e);
      EffectAllHooked(c, t, u, e.o);
    }
  }

  lemma EffectAllHooked(c: Config, t: State, u: State, o: Obj)
    requires HookEffect(c, t, u, o) && AllHooked(c, t) && Tracks(c, t.w, o)
    requires Select(c, t.w.objects[o].class_).Some? ==> IsHooked(c, t.w, t.w.objects[o].vptr)
    ensures AllHooked(c, u)
  {
    forall x: Obj {:trigger x in u.replaced} | x in u.replaced ensures Tracks(c, u.w, x) {
      assert x == o || x in t.replaced;
      assert Tracks(c, t.w, x);
    }
  }

  lemma StepAllHooked(c: Config, p: ObjectConfig, s: State, e: Event)
    requires ObjectsInv(c, p, s) && ValidObjects(c, p) && OneVtablePerClass(c) && Possible(c, p, s, e) &&
      SoundEvent(c, p, s, e) && AllHooked(c, s) && Succeeds(e)
    ensures AllHooked(c, After(c, p, s, e))
  {
    var u := After(c, p, s, e);
    if e.EngineEvent? {
      EngineAllHooked(c, p, s, e);
    } else {
      if e.LeaveObjectHook? { UnhookObjectKeeps(c, p, s, e.o); }
      if e.LeaveVtableHook? { UnhookBeside(c, s, e.h, e.o); }
      forall x: Obj {:trigger x in u.replaced} | x in u.replaced ensures Tracks(c, u.w, x) {
        assert x in s.replaced && Tracks(c, s.w, x) && ReplacedOk(c, s, x);
      }
    }
  }

  lemma {:induction false} RunAllHooked(c: Config, p: ObjectConfig, s: State, events: seq<Event>)
    requires ObjectsInv(c, p, s) && ValidObjects(c, p) && OneVtablePerClass(c) && CanHappen(c, p, s, events) &&
      AllHooked(c, s)
    requires forall i: nat {:trigger events[i]} :: i < |events| ==> Succeeds(events[i])
    ensures AllHooked(c, AfterAll(c, p, s, events))
    decreases |events|
  {
    if events != [] {
      AfterKeeps(c, p, s, events[0]);
      StepAllHooked(c, p, s, events[0]);
      RunAllHooked(c, p, After(c, p, s, events[0]), events[1..]);
    }
  }

  /** After a run in which no vtable hook fails, a call on any slot of a hooked object passes its object hook once, then
      its vtable hook once, and ends in the function the vtable held before any hook. */
  lemma PassesAllHooks(c: Config, p: ObjectConfig, s: State, events: seq<Event>, o: Obj, x: nat, n: nat)
    requires ObjectsInv(c, p, s) && ValidObjects(c, p) && OneVtablePerClass(c) && CanHappen(c, p, s, events) &&
      AllHooked(c, s)
    requires forall i: nat {:trigger events[i]} :: i < |events| ==> Succeeds(events[i])
    requires var u := AfterAll(c, p, s, events);
      o in u.replaced && u.replaced[o] in c.native && x < |c.native[u.replaced[o]]| && n >= 2
    ensures var u := AfterAll(c, p, s, events);
      o in u.w.objects && u.w.objects[o].vptr in u.w.vtables && x < |u.w.vtables[u.w.objects[o].vptr]|
      && var m := u.w.objects[o].class_;
      Path(c, p, u, o, x, u.w.vtables[u.w.objects[o].vptr][x], n)
      == Listed(ObjectHook(p, m, x)) + Listed(VtableHook(c, m, x)) + [c.native[u.replaced[o]][x]]
  {
    var u := AfterAll(c, p, s, events);
    RunAllHooked(c, p, s, events);
    PassesAllHooksIff(c, p, u, o, x, n);
    assert ReplacedOk(c, u, o) && Tracks(c, u.w, o) && u.per[u.w.objects[o].class_].copy.Some?;
    HookedWhenTracked(c, p, u, o);
  }

  lemma HookedWhenTracked(c: Config, p: ObjectConfig, s: State, o: Obj)
    requires ObjectsInv(c, p, s) && OneVtablePerClass(c) && o in s.replaced && Tracks(c, s.w, o)
    ensures o in s.w.objects
    ensures Select(c, s.w.objects[o].class_).Some? && Select(c, s.w.objects[o].class_).value in c.specs ==>
      IsHooked(c, s.w, s.replaced[o])
  {
    assert ReplacedOk(c, s, o);
    var m := s.w.objects[o].class_;
    assert CopyOk(c, p, s, m);
    if Select(c, m).Some? && Select(c, m).value in c.specs {
      var k := TrackKeyOf(c, s.w, Select(c, m).value, o);
      TrackedIsHooked(c, s.w, k);
      assert TrackedOk(c, s.w, k) && EntryOk(c, s.w, s.w.tracked[k].vtEntry);
      assert c.home[s.w.tracked[k].original] == c.home[s.replaced[o]];
    }
  }

  // ---------- runs in which a vtable hook fails ----------

  /** The event patches the copy of class `m` once more. */
  ghost predicate RewritesCopy(c: Config, p: ObjectConfig, s: State, e: Event, m: MetaClass)
    requires Possible(c, p, s, e)
  {
    e.EngineEvent? && !SoundEvent(c, p, s, e) && s.w.objects[e.o].class_ == m
  }

  /** A copy is as it was made for as long as it lives, but for its slots, which change exactly with an engine event
      that
      is not sound; and it was made from the hooked vtable exactly when the vtable was hooked after the engine's own
      attempt. */
  lemma CopyStaysAsMade(c: Config, p: ObjectConfig, s: State, e: Event, m: MetaClass)
    requires ObjectsInv(c, p, s) && ValidObjects(c, p) && OneVtablePerClass(c) && Possible(c, p, s, e) && m in s.per
    ensures var u := After(c, p, s, e);
      && m in u.per
      && (s.per[m].copy.Some? && u.per[m].copy.Some? ==>
            && u.per[m].copy == s.per[m].copy && u.per[m].patched == s.per[m].patched &&
              u.per[m].info == s.per[m].info
            && u.per[m].copy.value in s.w.vtables && u.per[m].copy.value in u.w.vtables
            && (u.w.vtables[u.per[m].copy.value] == s.w.vtables[s.per[m].copy.value] <==> !RewritesCopy(c, p, s, e, m)))
      && (s.per[m].copy == None && u.per[m].copy.Some? ==>
            && e.EngineEvent? && u.per[m].original.Some?
            && (u.per[m].patched <==> IsHooked(c, HookVtableFirst(c, s, e.o, e.vtableFault, e.id).w,
              u.per[m].original.value)))
  {
    CopyFields(c, p, s, e, m);
    if s.per[m].copy.Some? && After(c, p, s, e).per[m].copy.Some? { CopySlots(c, p, s, e, m); }
  }

  lemma CopyFields(c: Config, p: ObjectConfig, s: State, e: Event, m: MetaClass)
    requires ObjectsInv(c, p, s) && ValidObjects(c, p) && OneVtablePerClass(c) && Possible(c, p, s, e) && m in s.per
    ensures var u := After(c, p, s, e);
      && m in u.per
      && (s.per[m].copy.Some? && u.per[m].copy.Some? ==>
        u.per[m].copy == s.per[m].copy && u.per[m].patched == s.per[m].patched && u.per[m].info == s.per[m].info &&
          u.per[m].original == s.per[m].original)
      && (s.per[m].copy == None && u.per[m].copy.Some? ==>
            e.EngineEvent? && u.per[m].original.Some?
            && (u.per[m].patched <==> IsHooked(c, HookVtableFirst(c, s, e.o, e.vtableFault, e.id).w,
              u.per[m].original.value)))
  {
    if e.EngineEvent? {
      var t := EngineEffect(c, p, s, e);
    } else if e.LeaveObjectHook? {
      LeavingKeepsCopy(c, p, s, e.o, m);
    }
  }

  lemma LeavingKeepsCopy(c: Config, p: ObjectConfig, s: State, o: Obj, m: MetaClass)
    requires ObjectsInv(c, p, s) && o in s.w.objects && s.w.objects[o].class_ in s.per && m in s.per
    ensures var u := UnhookObject(s, o);
      m in u.per && (u.per[m].copy.Some? ==> u.per[m] == s.per[m].(counter := u.per[m].counter))
  {
  }

  lemma CopySlots(c: Config, p: ObjectConfig, s: State, e: Event, m: MetaClass)
    requires ObjectsInv(c, p, s) && ValidObjects(c, p) && OneVtablePerClass(c) && Possible(c, p, s, e) && m in s.per
    requires m in After(c, p, s, e).per && s.per[m].copy.Some? && After(c, p, s, e).per[m].copy.Some?
    ensures var u := After(c, p, s, e);
      && u.per[m].copy.value in s.w.vtables && u.per[m].copy.value in u.w.vtables && s.per[m].copy == u.per[m].copy
      && (u.w.vtables[u.per[m].copy.value] == s.w.vtables[s.per[m].copy.value] <==> !RewritesCopy(c, p, s, e, m))
  {
    CopyFields(c, p, s, e, m);
    var u := After(c, p, s, e);
    assert CopyOk(c, p, s, m);
    if SoundEvent(c, p, s, e) {
      AfterKeeps(c, p, s, e);
      assert CopyOk(c, p, u, m);
    } else if e.EngineEvent? {
      UnsoundEngine(c, p, s, e);
      UnsoundLeaves(c, p, s, e);
      assert ReplacedOk(c, s, e.o) && CopiesApart(s, m, s.w.objects[e.o].class_);
    } else {
      UnhookBeside(c, s, e.h, e.o);
    }
  }
}
